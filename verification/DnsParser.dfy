/** The parser in memory: a cursor over the message, and the buffers that names are written to. */
module DnsParser {
  import opened Wrappers
  import opened Bytes
  import opened DnsNames
  import opened Dns

  /** Parsing from p on, behind the text there is, leads to the target.  (Stated of every q that is p,
      to keep the parsing folded.) */
  ghost predicate ParseLeads(msg: seq<Byte>, p: nat, out: seq<Byte>, target: Option<(seq<Byte>, nat)>) {
    forall q: nat :: q == p ==> Parse(msg, q, out) == target
  }

  /** One turn of the loop of parse_name. */
  lemma ParseTurn(msg: seq<Byte>, p: nat, out: seq<Byte>, target: Option<(seq<Byte>, nat)>)
    requires p <= |msg| && ParseLeads(msg, p, out, target)
    ensures if p == |msg| then target == None
            else if msg[p] == 0 then target == Some((out, p + 1))
            else if msg[p] >= TAG then target == if p + 2 > |msg| then None else Some((out, p + 2))
            else if p + 1 + msg[p] > |msg| || |out| + msg[p] + 2 > ROOM then target == None
            else ParseLeads(msg, p + 1 + msg[p], Dotted(out) + msg[p + 1..p + 1 + msg[p]], target)
  {
    assert Parse(msg, p, out) == target;
  }

  /** The part of a message that is still to be parsed. */
  class Cursor {
    const msg: seq<Byte>
    var ptr: nat

    ghost predicate Valid()
      reads this
    {
      ptr <= |msg|
    }

    constructor (msg: seq<Byte>, start: nat)
      requires start <= |msg|
      ensures Valid() && this.msg == msg && ptr == start
    {
      this.msg, ptr := msg, start;
    }

    /** The loop of parse_name; n is the length of the text. */
    method Labels(name: array<Byte>) returns (ret: int, n: nat)
      requires Valid() && name.Length == ROOM
      modifies this, name
      ensures Valid() && (ret == 0 || ret == -1)
      ensures ret == 0 ==> n < ROOM && Parse(msg, old(ptr), []) == Some((name[..n], ptr))
      ensures ret == -1 ==> Parse(msg, old(ptr), []) == None
    {
      n := 0;
      assert name[..0] == [];
      ghost var target := Parse(msg, ptr, []);
      while true
        invariant Valid() && n < ROOM && ParseLeads(msg, ptr, name[..n], target)
        decreases |msg| - ptr
      {
        ParseTurn(msg, ptr, name[..n], target);
        if ptr == |msg| { return -1, n; }
        var len: nat := msg[ptr];
        ptr := ptr + 1;
        if len == 0 { return 0, n; }
        if len >= TAG {
          if ptr + 1 > |msg| { return -1, n; }
          ptr := ptr + 1;
          return 0, n;
        }
        if ptr + len > |msg| { return -1, n; }
        if n + len + 2 > ROOM { return -1, n; }
        n := Copy(name, n, ptr, len);
        ptr := ptr + len;
      }
    }

    /** A dot, unless the label is the first, and the label. */
    method Copy(name: array<Byte>, n: nat, start: nat, len: nat) returns (n': nat)
      requires name.Length == ROOM && n + len + 2 <= ROOM && start + len <= |msg|
      modifies name
      ensures n' < ROOM && name[..n'] == Dotted(old(name[..n])) + msg[start..start + len]
    {
      ghost var out := name[..n];
      n' := n;
      if n > 0 {
        name[n] := DOT;
        n' := n + 1;
      }
      assert name[..n'] == Dotted(out);
      ghost var before := name[..n'];
      forall i | 0 <= i < len {
        name[n' + i] := msg[start + i];
      }
      assert name[..n' + len] == before + msg[start..start + len];
      n' := n' + len;
    }

    /** parse_name */
    method ParseName(name: array<Byte>) returns (ret: int, n: nat)
      requires Valid() && name.Length == ROOM
      modifies this, name
      ensures Valid() && (ret == 0 || ret == -1)
      ensures ret == 0 ==> n < ROOM && name[n] == 0 && Dns.ParseName(msg, old(ptr)) == Some((name[..n], ptr))
      ensures ret == -1 ==> Dns.ParseName(msg, old(ptr)) == None
      ensures ret == 0 ==> Spells(msg, old(ptr), name[..n])
    {
      ghost var p := ptr;
      ret, n := Labels(name);
      if ret < 0 { return; }
      name[n] := 0;
      ToLower(name, n);
      ParsedSpells(msg, p);
    }

    /** The 16-bit word at an offset from the cursor. */
    method Word(at: nat) returns (w: Word16)
      requires ptr + at + 2 <= |msg|
      ensures w == WordAt(msg, ptr + at)
    {
      w := 256 * (msg[ptr + at] as nat) + msg[ptr + at + 1];
    }

    /** parse_question */
    method ParseQuestion(q: QuestionOut) returns (ret: int)
      requires Valid() && q.Valid()
      modifies this, q, q.name
      ensures Valid() && q.Valid() && (ret == 0 || ret == -1)
      ensures ret == 0 ==> q.Terminated() && Dns.ParseQuestion(msg, old(ptr)) == Some((q.View(), ptr))
      ensures ret == -1 ==> Dns.ParseQuestion(msg, old(ptr)) == None
      ensures ret == 0 ==> Spells(msg, old(ptr), q.View().name)
    {
      var r, n := ParseName(q.name);
      if r < 0 { return -1; }
      if ptr + 4 > |msg| { return -1; }
      q.size := n;
      q.qtype := Word(0);
      q.qclass := Word(2);
      ptr := ptr + 4;
      ret := 0;
    }

    /** parse_rr */
    method ParseRecord(rr: RecordOut) returns (ret: int)
      requires Valid() && rr.Valid()
      modifies this, rr, rr.name
      ensures Valid() && rr.Valid() && (ret == 0 || ret == -1)
      ensures ret == 0 ==>
        rr.Terminated() && rr.Within(msg) && Dns.ParseRecord(msg, old(ptr)) == Some((rr.View(msg), ptr))
      ensures ret == -1 ==> Dns.ParseRecord(msg, old(ptr)) == None
      ensures ret == 0 ==> Spells(msg, old(ptr), rr.View(msg).name)
    {
      var r, n := ParseName(rr.name);
      if r < 0 { return -1; }
      rr.size := n;
      ret := RecordFields(rr);
    }

    /** parse_rr behind the name. */
    method RecordFields(rr: RecordOut) returns (ret: int)
      requires Valid() && rr.Valid() && rr.Terminated()
      modifies this, rr
      ensures Valid() && rr.size == old(rr.size) && (ret == 0 || ret == -1)
      ensures ret == 0 ==> rr.Within(msg) && ParseFixed(msg, old(ptr), rr.name[..rr.size]) == Some((rr.View(msg), ptr))
      ensures ret == -1 ==> ParseFixed(msg, old(ptr), rr.name[..rr.size]) == None
    {
      if ptr + 10 > |msg| { return -1; }
      rr.rtype := Word(0);
      rr.rclass := Word(2);
      var hi := Word(4);
      var lo := Word(6);
      rr.ttl := 0x1_0000 * (hi as nat) + lo;
      rr.len := Word(8);
      rr.data := ptr + 10;
      if ptr + 10 + rr.len > |msg| { return -1; }
      ptr := ptr + 10 + rr.len;
      ret := 0;
    }
  }

  /** br_to_lower */
  method ToLower(name: array<Byte>, n: nat)
    requires n < name.Length
    modifies name
    ensures name[..n] == Lowered(old(name[..n])) && name[n] == old(name[n])
    ensures LowerCase(name[..n], old(name[..n]))
  {
    var p := 0;
    while p < n
      invariant 0 <= p <= n && name[n] == old(name[n])
      invariant forall i :: 0 <= i < p ==> name[i] == Lower(old(name[i]))
      invariant forall i :: p <= i < n ==> name[i] == old(name[i])
    {
      name[p] := Lower(name[p]);
      p := p + 1;
    }
    LoweredMeans(name[..n], old(name[..n]));
  }

  class QuestionOut {
    const name: array<Byte>
    ghost var size: nat
    var qtype: Word16
    var qclass: Word16

    ghost predicate Valid()
      reads this
    {
      name.Length == ROOM
    }

    ghost predicate Terminated()
      reads this, name
      requires Valid()
    {
      size < ROOM && name[size] == 0
    }

    ghost function View(): ParsedQuestion
      reads this, name
      requires Valid() && Terminated()
    {
      ParsedQuestion(name[..size], qtype, qclass)
    }

    constructor ()
      ensures Valid() && fresh(name)
    {
      name := new Byte[ROOM](_ => 0);
      size, qtype, qclass := 0, 0, 0;
    }
  }

  class RecordOut {
    const name: array<Byte>
    ghost var size: nat
    var rtype: Word16
    var rclass: Word16
    var ttl: Word32
    var len: Word16
    var data: nat   // where the data are in the message

    ghost predicate Valid()
      reads this
    {
      name.Length == ROOM
    }

    ghost predicate Terminated()
      reads this, name
      requires Valid()
    {
      size < ROOM && name[size] == 0
    }

    ghost predicate Within(msg: seq<Byte>)
      reads this
    {
      data + len <= |msg|
    }

    ghost function View(msg: seq<Byte>): ParsedRecord
      reads this, name
      requires Valid() && Terminated() && Within(msg)
    {
      ParsedRecord(name[..size], rtype, rclass, ttl, msg[data..data + len])
    }

    constructor ()
      ensures Valid() && fresh(name)
    {
      name := new Byte[ROOM](_ => 0);
      size, rtype, rclass, ttl, len, data := 0, 0, 0, 0, 0, 0;
    }
  }
}
