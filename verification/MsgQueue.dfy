/** OS_Q: a message queue in a circular buffer.

  OSQStart is index 0 and OSQEnd is one past the buffer; OSQIn and OSQOut are
  indexes that wrap as the C pointers do.  Contents is the queue itself.
*/
module MsgQueue {
  type Msg = int

  datatype Ring = Ring(buf: seq<Msg>, inAt: nat, outAt: nat, entries: nat)

  const EMPTY := Ring([], 0, 0, 0)

  // Index i, at most one lap ahead, brought back into the buffer.
  function Wrap(i: nat, size: nat): nat {
    if i < size then i else i - size
  }

  predicate RingOk(r: Ring) {
    && r.entries <= |r.buf|
    && (|r.buf| == 0 ==> r.inAt == 0 && r.outAt == 0)
    && (|r.buf| > 0 ==> r.outAt < |r.buf| && r.inAt == Wrap(r.outAt + r.entries, |r.buf|))
  }

  function Contents(r: Ring): (s: seq<Msg>)
    requires RingOk(r)
    ensures |s| == r.entries
    ensures forall i :: 0 <= i < |s| ==> s[i] == r.buf[Wrap(r.outAt + i, |r.buf|)]
  {
    seq(r.entries, i requires 0 <= i < r.entries => r.buf[Wrap(r.outAt + i, |r.buf|)])
  }

  // The extraction in OSQPend and OSEventPendMulti.
  function Get(r: Ring): (res: (Ring, Msg))
    requires RingOk(r) && r.entries > 0
    ensures RingOk(res.0) && |res.0.buf| == |r.buf|
    ensures Contents(r) == [res.1] + Contents(res.0)
  {
    var msg := r.buf[r.outAt];
    var out := r.outAt + 1;
    var r' := r.(outAt := if out == |r.buf| then 0 else out, entries := r.entries - 1);
    var c, c' := Contents(r), Contents(r');
    assert forall i :: 0 <= i < |c'| ==> c'[i] == c[i + 1];
    assert c == [c[0]] + c';
    (r', msg)
  }

  // The insertion in OSQPost.
  function Put(r: Ring, msg: Msg): (r': Ring)
    requires RingOk(r) && r.entries < |r.buf|
    ensures RingOk(r') && |r'.buf| == |r.buf|
    ensures Contents(r') == Contents(r) + [msg]
  {
    var inNext := r.inAt + 1;
    var r' := r.(buf := r.buf[r.inAt := msg], inAt := if inNext == |r.buf| then 0 else inNext,
                 entries := r.entries + 1);
    assert forall i :: 0 <= i < r.entries ==> Contents(r')[i] == Contents(r)[i];
    r'
  }

  // OSQPost with nobody waiting: the queue afterwards, and whether it took the
  // message.
  function Offer(r: Ring, msg: Msg): (res: (Ring, bool))
    requires RingOk(r)
    ensures RingOk(res.0) && |res.0.buf| == |r.buf|
  {
    if r.entries >= |r.buf| then (r, false) else (Put(r, msg), true)
  }

  lemma OfferTakes(r: Ring, msg: Msg)
    requires RingOk(r)
    ensures var (r', taken) := Offer(r, msg);
      && (taken <==> |Contents(r)| < |r.buf|)
      && Contents(r') == if taken then Contents(r) + [msg] else Contents(r)
  {
  }

  // The first n posts, one after another: the queue afterwards, and how many it
  // took.
  function OfferAll(r: Ring, msgs: seq<Msg>, n: nat): (res: (Ring, nat))
    requires RingOk(r) && n <= |msgs|
    ensures RingOk(res.0) && |res.0.buf| == |r.buf|
  {
    if n == 0 then (r, 0)
    else
      var before := OfferAll(r, msgs, n - 1);
      var (r', taken) := Offer(before.0, msgs[n - 1]);
      (r', before.1 + if taken then 1 else 0)
  }

  lemma Fits(r: Ring)
    requires RingOk(r)
    ensures |Contents(r)| <= |r.buf|
  {
  }

  // A queue takes exactly as many posts as it has free entries, and refuses
  // all others; what it took it stores in the order of the posts.
  lemma {:induction false} TakesUntilFull(r: Ring, msgs: seq<Msg>, n: nat)
    requires RingOk(r) && n <= |msgs|
    ensures var (r', taken) := OfferAll(r, msgs, n); var room := |r.buf| - |Contents(r)|;
      && taken == (if n < room then n else room)
      && Contents(r') == Contents(r) + msgs[..taken]
    decreases n
  {
    hide RingOk, Contents, Offer, OfferAll;
    Fits(r);
    if n == 0 {
      NoOffer(r, msgs);
      AddedNone(Contents(r), msgs);
    } else {
      TakesUntilFull(r, msgs, n - 1);
      LastOffer(r, msgs, n);
      OfferTakes(OfferAll(r, msgs, n - 1).0, msgs[n - 1]);
      AddedOne(Contents(r), msgs, OfferAll(r, msgs, n - 1).1);
    }
  }

  lemma NoOffer(r: Ring, msgs: seq<Msg>)
    requires RingOk(r)
    ensures OfferAll(r, msgs, 0) == (r, 0)
  {
  }

  lemma LastOffer(r: Ring, msgs: seq<Msg>, n: nat)
    requires RingOk(r) && 0 < n <= |msgs|
    ensures var before := OfferAll(r, msgs, n - 1); var last := Offer(before.0, msgs[n - 1]);
      OfferAll(r, msgs, n) == (last.0, before.1 + if last.1 then 1 else 0)
  {
    hide RingOk, Contents, Offer;
  }

  lemma AddedNone(base: seq<Msg>, msgs: seq<Msg>)
    ensures base + msgs[..0] == base
  {
  }

  lemma AddedOne(base: seq<Msg>, msgs: seq<Msg>, n: nat)
    ensures n < |msgs| ==> base + msgs[..n] + [msgs[n]] == base + msgs[..n + 1]
  {
  }

  // OSQCreate: an empty queue of the size of its buffer.
  function Created(buf: seq<Msg>): (r: Ring)
    ensures RingOk(r) && Contents(r) == [] && |r.buf| == |buf|
  {
    Ring(buf, 0, 0, 0)
  }

  // So a new queue of size N takes exactly N posts.
  lemma NewTakesItsSize(buf: seq<Msg>, msgs: seq<Msg>)
    ensures var (r, taken) := OfferAll(Created(buf), msgs, |msgs|);
      && taken == (if |msgs| < |buf| then |msgs| else |buf|)
      && Contents(r) == msgs[..taken]
  {
    TakesUntilFull(Created(buf), msgs, |msgs|);
  }
}
