/** The receive side of a message channel: a sliding buffer, parsed and handled frame by frame. */
module Receiver {
  import opened Wrappers
  import opened Sequences
  import opened Bytes
  import opened Frames

  const CAPACITY: nat := 1024

  class Channel {
    const data: array<Byte>          // head is 0 and end is CAPACITY
    var pos: nat                     // where parsing goes on
    var tail: nat                    // where the data end
    const registered: set<nat>       // the ids that have a handler
    const accepts: Frame -> bool     // whether its handler succeeds on a frame
    var handled: seq<Frame>          // the frames taken from the buffer and given to cmsg_deal
    ghost var received: seq<Byte>    // every byte read so far

    ghost predicate Valid()
      reads this, data
    {
      && data.Length == CAPACITY && pos <= tail <= CAPACITY
      && EncodeAll(handled) + Raw() == received
    }

    /** The bytes that await parsing. */
    function Raw(): seq<Byte>
      reads this, data
      requires pos <= tail <= data.Length
    {
      data[pos..tail]
    }

    constructor (registered: set<nat>, accepts: Frame -> bool)
      ensures Valid() && handled == [] && received == [] && pos == 0 && tail == 0
      ensures this.registered == registered && this.accepts == accepts && fresh(data)
    {
      data := new Byte[CAPACITY](_ => 0);
      pos, tail, handled, received := 0, 0, [], [];
      this.registered, this.accepts := registered, accepts;
    }

    /** cmsg_recv: the bytes read go behind the data; no more are read than there is room for. */
    method Receive(chunk: seq<Byte>)
      requires Valid() && |chunk| <= CAPACITY - tail
      modifies this`tail, this`received, data
      ensures Valid() && Raw() == old(Raw()) + chunk && received == old(received) + chunk && tail == old(tail) + |chunk|
    {
      ghost var before := data[..];
      forall i | 0 <= i < |chunk| {
        data[tail + i] := chunk[i];
      }
      tail := tail + |chunk|;
      received := received + chunk;
      assert data[pos..tail] == before[pos..old(tail)] + chunk;
      Associative(EncodeAll(handled), before[pos..old(tail)], chunk);
    }

    /** cmsg_data_get_from_buf: a complete frame is copied out and the cursor moves behind it. */
    method TakeFrame() returns (r: Option<Frame>)
      requires Valid()
      modifies this`pos, this`handled
      ensures Valid() && (r.Some? <==> old(ParseOne(Raw())).Some?)
      ensures r.Some? ==> r.value == old(ParseOne(Raw())).value.0 && Raw() == old(ParseOne(Raw())).value.1
      ensures r.Some? ==> handled == old(handled) + [r.value]
      ensures r.None? ==> pos == old(pos) && handled == old(handled)
    {
      ghost var all := data[..];
      if tail - pos < 8 {
        TooShort(all, pos, tail);
        return None;
      }
      var id := Val(data[pos..pos + 4]);
      var len := Val(data[pos + 4..pos + 8]);
      if tail - (pos + 8) < len {
        TooShort(all, pos, tail);
        return None;
      }
      var f: Frame := Message(id, data[pos + 8..pos + 8 + len]);
      TakeConserves(handled, received, all, pos, tail, f, len);
      pos := pos + 8 + len;
      handled := handled + [f];
      r := Some(f);
    }

    /** buf_move: what is left slides to the front. */
    method Slide()
      requires Valid()
      modifies this`pos, this`tail, data
      ensures Valid() && pos == 0 && Raw() == old(Raw())
    {
      var sz := tail - pos;
      var i := 0;
      while i < sz
        invariant 0 <= i <= sz && pos == old(pos) && tail == old(tail)
        invariant forall k :: 0 <= k < i ==> data[k] == old(data[pos + k])
        invariant forall k :: pos + i <= k < tail ==> data[k] == old(data[k])
      {
        data[i] := data[pos + i];
        i := i + 1;
      }
      pos, tail := 0, sz;
      assert data[0..sz] == old(data[pos..tail]);
    }

    /** cmsg_deal */
    method Deal(f: Frame) returns (ok: bool)
      ensures ok <==> f.id in registered && accepts(f)
    {
      ok := f.id in registered && accepts(f);
    }

    /** One turn of the inner loop: the next frame is taken and handled, if there is one. */
    method HandleNext(ghost start: seq<Frame>, ghost fs: seq<Frame>, ghost done: seq<Frame>,
          ghost todo: seq<Frame>, ghost left: seq<Byte>)
      returns (more: bool, ok: bool, ghost done': seq<Frame>, ghost todo': seq<Frame>)
      requires Valid() && ParseAll(Raw()) == (todo, left) && fs == done + todo && AllAccepted(registered, accepts, done)
      requires handled == start + done
      modifies this`pos, this`handled
      ensures Valid() && (more ==> ok) && handled == start + done'
      ensures !more && ok ==> done' == fs && Raw() == left && AllAccepted(registered, accepts, done')
      ensures more ==>
        && pos > old(pos) && ParseAll(Raw()) == (todo', left) && fs == done' + todo'
        && AllAccepted(registered, accepts, done')
      ensures !ok ==> |done'| > 0 && FirstRefused(registered, accepts, fs, |done'| - 1) && done' == fs[..|done'|]
    {
      NextParsed(Raw(), todo, left);
      var r := TakeFrame();
      if r.None? { return false, true, done, todo; }
      OneMore(done, todo, fs);
      Associative(start, done, [r.value]);
      done', todo' := done + [r.value], todo[1..];
      ok := Deal(r.value);
      more := ok;
    }

    /** The inner loop: handle every complete frame, or stop at the first that is refused. */
    method DealAll() returns (ok: bool)
      requires Valid()
      modifies this`pos, this`handled
      ensures Valid() && tail == old(tail)
      ensures var (fs, left) := old(ParseAll(Raw()));
        if ok then handled == old(handled) + fs && Raw() == left && AllAccepted(registered, accepts, fs)
        else exists k: nat :: FirstRefused(registered, accepts, fs, k) && handled == old(handled) + fs[..k + 1]
    {
      ghost var start, fs, left := handled, ParseAll(Raw()).0, ParseAll(Raw()).1;
      ghost var done: seq<Frame>, todo := [], fs;
      var more := true;
      ok := true;
      while more
        invariant Valid() && tail == old(tail) && ok && handled == start + done
        invariant AllAccepted(registered, accepts, done)
        invariant if more then fs == done + todo && ParseAll(Raw()) == (todo, left) else done == fs && Raw() == left
        decreases more, tail - pos
      {
        more, ok, done, todo := HandleNext(start, fs, done, todo, left);
        if !ok { return; }
      }
    }

    /** One round of the outer loop: read, handle what is complete, slide.  `before` are the frames
        handled when the call began, `some` those handled since, out of the bytes `sofar`. */
    method Round(chunk: seq<Byte>, ghost before: seq<Frame>, ghost some: seq<Frame>,
          ghost sofar: seq<Byte>) returns (ok: bool)
      requires Valid() && |chunk| <= CAPACITY - tail
      requires handled == before + some && EncodeAll(some) + Raw() == sofar && AllAccepted(registered, accepts, some)
      modifies this`pos, this`tail, this`handled, this`received, data
      ensures Valid() && received == old(received) + chunk
      ensures ok ==> pos == 0 && Parsed(before, sofar + chunk) && Raw() == ParseAll(old(Raw()) + chunk).1
      ensures !ok ==> exists k: nat :: var fs := ParseAll(sofar + chunk).0;
        FirstRefused(registered, accepts, fs, k) && handled == before + fs[..k + 1]
    {
      ghost var raw := Raw();
      ghost var fs := ParseAll(raw + chunk).0;
      Associative(EncodeAll(some), raw, chunk);
      ParseBehind(some, raw + chunk);
      Receive(chunk);
      ok := DealAll();
      if ok {
        Associative(before, some, fs);
        Slide();
      } else {
        ghost var j: nat :| FirstRefused(registered, accepts, fs, j) && handled == (before + some) + fs[..j + 1];
        RefusedLater(registered, accepts, before, some, fs, j);
      }
    }

    /** A round that reads on in a stream: no more than there is room for.  `raw0` and `rec0` are the bytes
        to parse and all the bytes read when the call began. */
    method ReadRound(stream: seq<Byte>, used: nat, cut: nat, ghost before: seq<Frame>, ghost some: seq<Frame>,
                     ghost raw0: seq<Byte>, ghost rec0: seq<Byte>)
      returns (ok: bool, used': nat, ghost some': seq<Frame>)
      requires Valid() && used <= |stream| && received == rec0 + stream[..used]
      requires handled == before + some && EncodeAll(some) + Raw() == raw0 + stream[..used]
      requires AllAccepted(registered, accepts, some)
      modifies this`pos, this`tail, this`handled, this`received, data
      ensures Valid() && used <= used' <= |stream| && received == rec0 + stream[..used']
      ensures used' == used + Min(cut, Min(CAPACITY - old(tail), |stream| - used))
      ensures ok ==> LeftOf(old(Raw()), stream, used, used', Raw())
      ensures ok ==> pos == 0 && Parsed(before, raw0 + stream[..used'])
      ensures ok ==>
        && handled == before + some' && EncodeAll(some') + Raw() == raw0 + stream[..used']
        && AllAccepted(registered, accepts, some')
      ensures !ok ==> exists k: nat :: var fs := ParseAll(raw0 + stream[..used']).0;
        FirstRefused(registered, accepts, fs, k) && handled == before + fs[..k + 1]
    {
      var n := Min(cut, Min(CAPACITY - tail, |stream| - used));
      ReadOn(rec0, stream, used, n);
      ReadOn(raw0, stream, used, n);
      ok := Round(stream[used..used + n], before, some, raw0 + stream[..used]);
      used' := used + n;
      some' := ParseAll(raw0 + stream[..used']).0;
      ParseConserves(raw0 + stream[..used']);
    }

    ghost predicate Leads(stream: seq<Byte>, used: nat, cuts: seq<nat>, k: nat, target: nat)
      reads this, data
      requires Valid() && used <= |stream| && k <= |cuts|
    {
      ReadLeads(Raw(), tail, stream, used, cuts, k, target)
    }

    /** The k-th round of a call that is to read up to the target. */
    method NextRound(stream: seq<Byte>, used: nat, cuts: seq<nat>, k: nat, ghost before: seq<Frame>,
                     ghost some: seq<Frame>, ghost raw0: seq<Byte>, ghost rec0: seq<Byte>, ghost target: nat)
      returns (ok: bool, used': nat, ghost some': seq<Frame>)
      requires Valid() && used <= |stream| && received == rec0 + stream[..used] && k < |cuts|
      requires handled == before + some && EncodeAll(some) + Raw() == raw0 + stream[..used]
      requires AllAccepted(registered, accepts, some) && Leads(stream, used, cuts, k, target)
      modifies this`pos, this`tail, this`handled, this`received, data
      ensures Valid() && used <= used' <= |stream| && received == rec0 + stream[..used']
      ensures cuts[k] > 0 && old(tail) < CAPACITY && used < |stream| ==> used' > used
      ensures ok ==> pos == 0 && Parsed(before, raw0 + stream[..used'])
      ensures ok ==>
        && handled == before + some' && EncodeAll(some') + Raw() == raw0 + stream[..used']
        && AllAccepted(registered, accepts, some')
      ensures ok ==> if tail == 0 then target == used' else Leads(stream, used', cuts, k + 1, target)
      ensures !ok ==> exists k: nat :: var fs := ParseAll(raw0 + stream[..used']).0;
        FirstRefused(registered, accepts, fs, k) && handled == before + fs[..k + 1]
    {
      ghost var raw, end := Raw(), tail;
      ok, used', some' := ReadRound(stream, used, cuts[k], before, some, raw0, rec0);
      if ok { ReadTurn(raw, end, stream, used, cuts, k, target, used', Raw()); }
    }

    /** cmsg_recv_and_deal on a byte stream.  `cuts` tells how many bytes each read finds ready; there is
        at least one.  The call ends with the stream parsed as far as it was read, or at the first
        refused frame.  It may be made in any state, also after a call that failed. */
    method ReceiveAndDeal(stream: seq<Byte>, cuts: seq<nat>) returns (ret: int, used: nat)
      requires Valid() && cuts != []
      modifies this, data
      ensures Valid() && used <= |stream| && received == old(received) + stream[..used]
      ensures ret == 0 || ret == -1
      ensures cuts[0] > 0 && old(tail) < CAPACITY && stream != [] ==> used > 0
      ensures var (fs, left) := ParseAll(old(Raw()) + stream[..used]);
        if ret == 0 then handled == old(handled) + fs && Raw() == left && pos == 0
            && AllAccepted(registered, accepts, fs)
        else exists k: nat :: FirstRefused(registered, accepts, fs, k) && handled == old(handled) + fs[..k + 1]
      ensures ret == 0 ==> used == ReadUpTo(old(Raw()), old(tail), stream, 0, cuts)
    {
      used, ret := 0, 0;
      ghost var before, raw0, rec0, some: seq<Frame> := handled, Raw(), received, [];
      ReadOn(raw0, stream, 0, 0);
      ReadOn(rec0, stream, 0, 0);
      assert EncodeAll(some) + Raw() == raw0;
      ghost var target := ReadUpTo(raw0, tail, stream, 0, cuts);
      ReadBegins(raw0, tail, stream, cuts);
      ghost var over := false;
      var k := 0;
      while k < |cuts|
        invariant 0 <= k <= |cuts| && used <= |stream| && ret == 0
        invariant Valid() && received == rec0 + stream[..used]
        invariant if k == 0 then used == 0 && tail == old(tail) else pos == 0 && Parsed(before, raw0 + stream[..used])
        invariant k > 0 && cuts[0] > 0 && old(tail) < CAPACITY && stream != [] ==> used > 0
        invariant handled == before + some && EncodeAll(some) + Raw() == raw0 + stream[..used]
        invariant AllAccepted(registered, accepts, some)
        invariant !over && Leads(stream, used, cuts, k, target)
      {
        var ok;
        ok, used, some := NextRound(stream, used, cuts, k, before, some, raw0, rec0, target);
        if !ok {
          ret := -1;
          return;
        }
        k := k + 1;
        over := tail == 0;
        if tail == 0 { break; }
      }
      if !over { ReadEnds(Raw(), tail, stream, used, cuts, target); }
    }

    /** One call on bytes of frames that are all accepted: `seen` are the bytes of `sent` read before, all
        parsed.  The call succeeds, and what has been handled are the first frames of `sent`. */
    method ReceiveSent(stream: seq<Byte>, cuts: seq<nat>, ghost before: seq<Frame>, ghost sent: seq<Frame>,
            ghost seen: seq<Byte>)
      returns (ret: int, used: nat)
      requires Valid() && cuts != [] && pos == 0 && Parsed(before, seen)
      requires seen + stream <= EncodeAll(sent) && AllAccepted(registered, accepts, sent)
      modifies this, data
      ensures Valid() && ret == 0 && used <= |stream| && pos == 0 && Parsed(before, seen + stream[..used])
      ensures before <= handled <= before + sent
      ensures cuts[0] > 0 && old(tail) < CAPACITY && stream != [] ==> used > 0
    {
      ghost var raw0, start := Raw(), handled;
      ret, used := ReceiveAndDeal(stream, cuts);
      ReadPrefix(seen, stream, used, EncodeAll(sent));
      SentParses(before, seen, start, raw0, stream[..used], sent);
      AcceptedPrefix(registered, accepts, sent, ParseAll(raw0 + stream[..used]).0, ParseAll(seen).0);
    }

    /** A call that goes on in a stream; at least one byte is ready, and there is room for it. */
    method ReceiveNext(stream: seq<Byte>, from: nat, cuts: seq<nat>, ghost before: seq<Frame>, ghost sent: seq<Frame>,
                       ghost seen: seq<Byte>)
      returns (to: nat, ghost seen': seq<Byte>)
      requires Valid() && cuts != [] && cuts[0] > 0 && pos == 0 && tail < CAPACITY && Parsed(before, seen)
      requires from < |stream| && seen == stream[..from] && stream == EncodeAll(sent)
      requires AllAccepted(registered, accepts, sent)
      modifies this, data
      ensures Valid() && pos == 0 && from < to <= |stream| && seen' == stream[..to] && seen' <= stream
      ensures Parsed(before, seen')
    {
      ghost var rest := stream[from..];
      SeenAndRest(stream, from, seen, rest);
      var _, used := ReceiveSent(stream[from..], cuts, before, sent, seen);
      to, seen' := from + used, seen + rest[..used];
      SeenMore(stream, from, used, seen, rest);
    }

    /** Delivery from end to end: the bytes of `sent` arrive in a stream, and the receiver is called again
        until they are used up.  Each call finds at least one byte ready.  What has been handled are always
        the first frames of `sent`, and after enough calls it is all of them. */
    method Deliver(stream: seq<Byte>, calls: seq<seq<nat>>, ghost sent: seq<Frame>) returns (used: nat)
      requires Valid() && pos == 0 && tail == 0 && stream == EncodeAll(sent)
      requires AllAccepted(registered, accepts, sent) && forall f :: f in sent ==> |Encode(f)| <= CAPACITY
      requires forall c :: c in calls ==> c != [] && c[0] > 0
      modifies this, data
      ensures Valid() && used <= |stream| && old(handled) <= handled <= old(handled) + sent
      ensures used == |stream| ==> handled == old(handled) + sent && Raw() == []
      ensures |calls| >= |stream| ==> used == |stream|
    {
      ghost var before, seen: seq<Byte> := handled, [];
      NothingParsed(before);
      used := 0;
      var k := 0;
      while k < |calls| && used < |stream|
        invariant 0 <= k <= |calls| && k <= used <= |stream| && Valid() && pos == 0
        invariant seen == stream[..used] && seen <= stream && Parsed(before, seen)
      {
        assert calls[k] in calls;
        AlwaysRoom(this, before, seen, sent);
        used, seen := ReceiveNext(stream, used, calls[k], before, sent, seen);
        k := k + 1;
      }
      SeenParses(before, seen, stream, sent);
    }

    /** All of raw has been handled, as far as it goes. */
    ghost predicate Parsed(before: seq<Frame>, raw: seq<Byte>)
      reads this, data
      requires pos <= tail <= data.Length
    {
      var (fs, left) := ParseAll(raw);
      handled == before + fs && Raw() == left && AllAccepted(registered, accepts, fs)
    }
  }

  /** Where a call that refuses nothing stops reading: `raw` are the bytes to parse, and `tail` is where the
      data end.  Each read takes what is ready and what there is room for, and the call goes on until
      nothing is left to parse. */
  function ReadUpTo(raw: seq<Byte>, tail: nat, stream: seq<Byte>, used: nat, cuts: seq<nat>): (u: nat)
    requires tail <= CAPACITY && used <= |stream| && |raw| <= tail
    ensures used <= u <= |stream|
    decreases |cuts|
  {
    if cuts == [] then used else
    var n: nat := Min(cuts[0], Min(CAPACITY - tail, |stream| - used));
    var left := ParseAll(raw + stream[used..used + n]).1;
    ParseConserves(raw + stream[used..used + n]);
    if left == [] then used + n else ReadUpTo(left, |left|, stream, used + n, cuts[1..])
  }

  /** Reading on from here leads to the target.  (Stated of every j that is k, to keep the reading folded.) */
  ghost predicate ReadLeads(raw: seq<Byte>, tail: nat, stream: seq<Byte>, used: nat, cuts: seq<nat>, k: nat,
                            target: nat)
    requires tail <= CAPACITY && used <= |stream| && |raw| <= tail && k <= |cuts|
  {
    forall j :: j == k ==> ReadUpTo(raw, tail, stream, used, cuts[j..]) == target
  }

  lemma ReadBegins(raw: seq<Byte>, tail: nat, stream: seq<Byte>, cuts: seq<nat>)
    requires tail <= CAPACITY && |raw| <= tail
    ensures ReadLeads(raw, tail, stream, 0, cuts, 0, ReadUpTo(raw, tail, stream, 0, cuts))
  {
    assert cuts[0..] == cuts;
  }

  /** What is left of the raw bytes and those of the stream from `used` to u.  (Stated of every v that is
      u, to keep the parsing folded.) */
  ghost predicate LeftOf(raw: seq<Byte>, stream: seq<Byte>, used: nat, u: nat, left: seq<Byte>)
    requires used <= u <= |stream|
  {
    forall v :: v == u ==> left == ParseAll(raw + stream[used..v]).1
  }

  lemma ReadTurn(raw: seq<Byte>, tail: nat, stream: seq<Byte>, used: nat, cuts: seq<nat>, k: nat, target: nat, u: nat,
                 left: seq<Byte>)
    requires tail <= CAPACITY && used <= |stream| && |raw| <= tail && k < |cuts|
    requires ReadLeads(raw, tail, stream, used, cuts, k, target)
    requires u == used + Min(cuts[k], Min(CAPACITY - tail, |stream| - used)) && LeftOf(raw, stream, used, u, left)
    ensures |left| <= CAPACITY
    ensures if left == [] then target == u else ReadLeads(left, |left|, stream, u, cuts, k + 1, target)
  {
    assert ReadUpTo(raw, tail, stream, used, cuts[k..]) == target;
    assert cuts[k..][1..] == cuts[k + 1..];
    assert left == ParseAll(raw + stream[used..u]).1;
    ParseConserves(raw + stream[used..u]);
  }

  lemma ReadEnds(raw: seq<Byte>, tail: nat, stream: seq<Byte>, used: nat, cuts: seq<nat>, target: nat)
    requires tail <= CAPACITY && used <= |stream| && |raw| <= tail
    requires ReadLeads(raw, tail, stream, used, cuts, |cuts|, target)
    ensures target == used
  {
    assert cuts[|cuts|..] == [];
    assert ReadUpTo(raw, tail, stream, used, cuts[|cuts|..]) == target;
  }

  /** A call that refuses nothing ends only when nothing is left to parse, or after as many reads as find
      something ready, or when the buffer is full. */
  lemma ReadsOn(raw: seq<Byte>, tail: nat, stream: seq<Byte>, used: nat, cuts: seq<nat>)
    requires tail < CAPACITY && used <= |stream| && |raw| <= tail && cuts != []
    requires forall c :: c in cuts ==> c > 0
    ensures var u := ReadUpTo(raw, tail, stream, used, cuts);
      Enough(ParseAll(raw + stream[used..u]).1, u - used, |cuts|, |stream| - used)
  {
    var u := ReadUpTo(raw, tail, stream, used, cuts);
    ReadsEnough(raw, tail, stream, used, cuts, u, ParseAll(raw + stream[used..u]).1);
  }

  /** Out of `ready` bytes, `taken` have been taken by n reads, with this left to parse. */
  predicate Enough(left: seq<Byte>, taken: int, n: int, ready: int) {
    left == [] || taken >= Min(n, ready) || |left| == CAPACITY
  }

  lemma {:induction false} ReadsEnough(raw: seq<Byte>, tail: nat, stream: seq<Byte>, used: nat, cuts: seq<nat>, u: nat,
                                       left: seq<Byte>)
    requires tail < CAPACITY && used <= |stream| && |raw| <= tail && cuts != []
    requires forall c :: c in cuts ==> c > 0
    requires u == ReadUpTo(raw, tail, stream, used, cuts) && LeftOf(raw, stream, used, u, left)
    ensures Enough(left, u - used, |cuts|, |stream| - used)
    decreases |cuts|
  {
    assert cuts[0] in cuts && forall c :: c in cuts[1..] ==> c in cuts;
    var v, first := FirstRead(raw, tail, stream, used, cuts, u);
    LeftLater(raw, stream, used, v, u, first, left);
    if first == [] {
      assert left == ParseAll([] + stream[v..v]).1;
      assert [] + stream[v..v] == [];
    } else if |first| == CAPACITY {
      FullStops(first, stream, v, cuts[1..]);
      assert left == ParseAll(first + stream[v..v]).1;
    } else if cuts[1..] != [] {
      ReadsEnough(first, |first|, stream, v, cuts[1..], u, left);
    }
  }

  lemma FirstRead(raw: seq<Byte>, tail: nat, stream: seq<Byte>, used: nat, cuts: seq<nat>, u: nat)
      returns (v: nat, first: seq<Byte>)
    requires tail <= CAPACITY && used <= |stream| && |raw| <= tail && cuts != []
    requires u == ReadUpTo(raw, tail, stream, used, cuts)
    ensures v == used + Min(cuts[0], Min(CAPACITY - tail, |stream| - used)) && v <= u <= |stream|
    ensures LeftOf(raw, stream, used, v, first) && |first| <= CAPACITY && ParseOne(first).None?
    ensures u == if first == [] then v else ReadUpTo(first, |first|, stream, v, cuts[1..])
  {
    v := used + Min(cuts[0], Min(CAPACITY - tail, |stream| - used));
    first := ParseAll(raw + stream[used..v]).1;
    ParseConserves(raw + stream[used..v]);
  }

  /** Nothing more is read into a full buffer. */
  lemma {:induction false} FullStops(raw: seq<Byte>, stream: seq<Byte>, used: nat, cuts: seq<nat>)
    requires |raw| == CAPACITY && used <= |stream| && ParseOne(raw).None?
    ensures ReadUpTo(raw, CAPACITY, stream, used, cuts) == used
    ensures ParseAll(raw + stream[used..used]).1 == raw
    decreases |cuts|
  {
    assert raw + stream[used..used + 0] == raw;
    if cuts != [] { FullStops(raw, stream, used, cuts[1..]); }
  }

  /** Parsing goes on where it stopped. */
  lemma LeftLater(raw: seq<Byte>, stream: seq<Byte>, used: nat, v: nat, u: nat, first: seq<Byte>, left: seq<Byte>)
    requires used <= v <= u <= |stream| && LeftOf(raw, stream, used, v, first) && LeftOf(raw, stream, used, u, left)
    ensures LeftOf(first, stream, v, u, left)
  {
    assert first == ParseAll(raw + stream[used..v]).1 && left == ParseAll(raw + stream[used..u]).1;
    ParseSplits(raw + stream[used..v], stream[v..u]);
    assert raw + stream[used..u] == (raw + stream[used..v]) + stream[v..u];
  }

  ghost predicate AllAccepted(registered: set<nat>, accepts: Frame -> bool, fs: seq<Frame>) {
    forall f :: f in fs ==> f.id in registered && accepts(f)
  }

  ghost predicate FirstRefused(registered: set<nat>, accepts: Frame -> bool, fs: seq<Frame>, k: nat) {
    && k < |fs| && AllAccepted(registered, accepts, fs[..k])
    && !(fs[k].id in registered && accepts(fs[k]))
  }

  /** The first refusal among later frames is the first of all. */
  lemma RefusedLater(registered: set<nat>, accepts: Frame -> bool, before: seq<Frame>, a: seq<Frame>,
        b: seq<Frame>, k: nat)
    requires AllAccepted(registered, accepts, a) && FirstRefused(registered, accepts, b, k)
    ensures FirstRefused(registered, accepts, a + b, |a| + k)
    ensures (before + a) + b[..k + 1] == before + (a + b)[..|a| + k + 1]
  {
    assert (a + b)[..|a| + k] == a + b[..k];
  }

  lemma ReadPrefix(seen: seq<Byte>, stream: seq<Byte>, used: nat, all: seq<Byte>)
    requires used <= |stream| && seen + stream <= all
    ensures seen + stream[..used] <= all
  {
    assert seen + stream[..used] == (seen + stream)[..|seen| + used];
  }

  /** Parsing what was left together with what was read is parsing all that has arrived. */
  lemma SentParses(before: seq<Frame>, seen: seq<Byte>, start: seq<Frame>, raw0: seq<Byte>, more: seq<Byte>,
          sent: seq<Frame>)
    requires start == before + ParseAll(seen).0 && raw0 == ParseAll(seen).1 && seen + more <= EncodeAll(sent)
    ensures ParseAll(seen + more) == (ParseAll(seen).0 + ParseAll(raw0 + more).0, ParseAll(raw0 + more).1)
    ensures ParseAll(seen).0 + ParseAll(raw0 + more).0 <= sent
    ensures start + ParseAll(raw0 + more).0 == before + ParseAll(seen + more).0
  {
    ParseSplits(seen, more);
    PrefixParses(sent, seen + more);
    Associative(before, ParseAll(seen).0, ParseAll(raw0 + more).0);
  }

  lemma SeenAndRest(stream: seq<Byte>, from: nat, seen: seq<Byte>, rest: seq<Byte>)
    requires from <= |stream| && seen == stream[..from] && rest == stream[from..]
    ensures seen + rest == stream
  {
  }

  lemma SeenMore(stream: seq<Byte>, from: nat, n: nat, seen: seq<Byte>, rest: seq<Byte>)
    requires from + n <= |stream| && seen == stream[..from] && rest == stream[from..]
    ensures seen + rest[..n] == stream[..from + n]
  {
  }

  lemma NothingParsed(before: seq<Frame>)
    ensures ParseAll([]) == ([], []) && before + [] == before
  {
  }

  /** What has been handled when the bytes `seen` are parsed. */
  lemma SeenParses(before: seq<Frame>, seen: seq<Byte>, stream: seq<Byte>, sent: seq<Frame>)
    requires stream == EncodeAll(sent) && seen <= stream
    ensures before <= before + ParseAll(seen).0 <= before + sent
    ensures |seen| == |stream| ==> ParseAll(seen) == (sent, [])
  {
    PrefixParses(sent, seen);
    PrefixBehind(before, ParseAll(seen).0, sent);
    if |seen| == |stream| {
      assert seen == stream;
      ParseOfEncodeAll(sent);
    }
  }

  lemma PrefixBehind(a: seq<Frame>, b: seq<Frame>, c: seq<Frame>)
    requires b <= c
    ensures a <= a + b <= a + c
  {
    assert c == b + c[|b|..];
    assert a + c == (a + b) + c[|b|..];
  }

  /** Of frames that are all accepted none is refused. */
  lemma AcceptedPrefix(registered: set<nat>, accepts: Frame -> bool, sent: seq<Frame>, fs: seq<Frame>,
          earlier: seq<Frame>)
    requires AllAccepted(registered, accepts, sent) && earlier + fs <= sent
    ensures AllAccepted(registered, accepts, earlier + fs) && forall k: nat :: !FirstRefused(registered, accepts, fs, k)
  {
    assert forall i :: 0 <= i < |earlier + fs| ==> sent[i] == (earlier + fs)[i];
    assert forall i :: 0 <= i < |fs| ==> (earlier + fs)[|earlier| + i] == fs[i];
  }

  /** Between rounds there is room to read on, if every frame sent fits the buffer. */
  lemma AlwaysRoom(c: Channel, before: seq<Frame>, sofar: seq<Byte>, sent: seq<Frame>)
    requires c.Valid() && c.pos == 0 && c.Parsed(before, sofar) && sofar <= EncodeAll(sent)
    requires forall f :: f in sent ==> |Encode(f)| <= CAPACITY
    ensures c.tail < CAPACITY
  {
    RoomIffFramesFit(sent, CAPACITY);
  }

  lemma ReadOn(before: seq<Byte>, stream: seq<Byte>, used: nat, n: nat)
    requires used + n <= |stream|
    ensures before + stream[..0] == before
    ensures (before + stream[..used]) + stream[used..used + n] == before + stream[..used + n]
  {
    assert stream[..used + n] == stream[..used] + stream[used..used + n];
  }

  /** The next frame TakeFrame finds is the next of all the frames there are. */
  lemma NextParsed(raw: seq<Byte>, todo: seq<Frame>, left: seq<Byte>)
    requires ParseAll(raw) == (todo, left)
    ensures ParseOne(raw).Some? ==>
      todo != [] && todo[0] == ParseOne(raw).value.0 && ParseAll(ParseOne(raw).value.1) == (todo[1..], left)
    ensures ParseOne(raw).None? ==> todo == [] && left == raw
  {
  }

  lemma OneMore(done: seq<Frame>, todo: seq<Frame>, fs: seq<Frame>)
    requires fs == done + todo && todo != []
    ensures fs == (done + [todo[0]]) + todo[1..] && fs[..|done|] == done && fs[..|done| + 1] == done + [todo[0]]
    ensures fs[|done|] == todo[0]
  {
  }

  lemma Slices(all: seq<Byte>, lo: nat, hi: nat, a: nat, b: nat)
    requires lo <= hi <= |all| && a <= b <= hi - lo
    ensures all[lo..hi][a..b] == all[lo + a..lo + b]
  {
    var x, y := all[lo..hi][a..b], all[lo + a..lo + b];
    assert |x| == |y| && forall i :: 0 <= i < |x| ==> x[i] == y[i];
  }

  /** The cursor arithmetic finds no frame where ParseOne finds none. */
  lemma TooShort(all: seq<Byte>, pos: nat, tail: nat)
    requires pos <= tail <= |all|
    requires tail - pos < 8 || tail - (pos + 8) < Val(all[pos + 4..pos + 8])
    ensures ParseOne(all[pos..tail]).None?
  {
    if tail - pos >= 8 { Slices(all, pos, tail, 4, 8); }
  }

  /** What the cursor arithmetic copies is the frame ParseOne finds, and with it handled no byte is lost. */
  lemma TakeConserves(handled: seq<Frame>, received: seq<Byte>, all: seq<Byte>, pos: nat, tail: nat, f: Frame, len: nat)
    requires pos + 8 + len <= tail <= |all| && len == Val(all[pos + 4..pos + 8])
    requires f == Message(Val(all[pos..pos + 4]), all[pos + 8..pos + 8 + len])
    requires EncodeAll(handled) + all[pos..tail] == received
    ensures ParseOne(all[pos..tail]) == Some((f, all[pos + 8 + len..tail]))
    ensures EncodeAll(handled + [f]) + all[pos + 8 + len..tail] == received
  {
    Slices(all, pos, tail, 0, 4);
    Slices(all, pos, tail, 4, 8);
    Slices(all, pos, tail, 8, 8 + len);
    Slices(all, pos, tail, 8 + len, tail - pos);
    EncodeOfParse(all[pos..tail]);
    HandledOne(handled, f, all[pos + 8 + len..tail]);
  }

  lemma HandledOne(handled: seq<Frame>, f: Frame, rest: seq<Byte>)
    ensures EncodeAll(handled + [f]) + rest == EncodeAll(handled) + (Encode(f) + rest)
  {
    EncodeAppend(handled, f);
    Associative(EncodeAll(handled), Encode(f), rest);
  }

  lemma {:induction false} EncodeAppend(fs: seq<Frame>, f: Frame)
    ensures EncodeAll(fs + [f]) == EncodeAll(fs) + Encode(f)
  {
    if fs == [] {
      assert Encode(f) + [] == Encode(f) && [] + [f] == [f];
    } else {
      assert (fs + [f])[0] == fs[0] && (fs + [f])[1..] == fs[1..] + [f];
      EncodeAppend(fs[1..], f);
      Associative(Encode(fs[0]), EncodeAll(fs[1..]), Encode(f));
    }
  }
}
