/**
  The drop-oldest subscription of the event bus (sidecar/bus.py).  Offers and closes hold the
  subscription lock; the consumer does not, so it may run between any two queue operations of
  an offer.  Each method below is one queue operation.
*/
module Bus {
  import opened Common

  /** A queued object; events carry their place in the sequence of accepted events. */
  datatype Item<E> = Event(number: nat, payload: E) | Sentinel

  /** Where the holder of the lock stands. */
  datatype Holder<E> = Free | Evicting(payload: E) | Retrying(payload: E) | ClosingEvict | ClosingRetry

  function Numbers<E>(q: seq<Item<E>>): seq<nat> {
    if q == [] then [] else (if q[0].Event? then [q[0].number] else []) + Numbers(q[1..])
  }

  lemma {:induction false} NumbersSnoc<E>(q: seq<Item<E>>, x: Item<E>)
    ensures Numbers(q + [x]) == Numbers(q) + if x.Event? then [x.number] else []
  {
    if q == [] {
      assert q + [x] == [x] && [x][1..] == [];
    } else {
      assert (q + [x])[1..] == q[1..] + [x];
      NumbersSnoc(q[1..], x);
      var first, last := if q[0].Event? then [q[0].number] else [], if x.Event? then [x.number] else [];
      assert first + (Numbers(q[1..]) + last) == first + Numbers(q[1..]) + last;
    }
  }

  ghost predicate Increasing(s: seq<nat>, below: int) {
    && (forall i, j | 0 <= i < j < |s| :: s[i] < s[j])
    && forall i | 0 <= i < |s| :: s[i] < below
  }

  /** Events in the queue are those accepted under their numbers; a sentinel is last. */
  ghost predicate QueueOk<E>(q: seq<Item<E>>, accepted: seq<E>) {
    && (forall i | 0 <= i < |q| && q[i].Event? :: q[i].number < |accepted| && q[i].payload == accepted[q[i].number])
    && (forall i | 0 <= i < |q| && q[i].Sentinel? :: i == |q| - 1)
  }

  lemma QueuePop<E>(q: seq<Item<E>>, accepted: seq<E>)
    requires QueueOk(q, accepted) && q != []
    ensures QueueOk(q[1..], accepted)
    ensures q[0].Sentinel? ==> q[1..] == []
    ensures Numbers(q) == (if q[0].Event? then [q[0].number] else []) + Numbers(q[1..])
  {
    assert forall i | 0 <= i < |q| - 1 :: q[1..][i] == q[i + 1];
  }

  /** One more event behind all others. */
  lemma AppendEvent<E>(delivered: seq<nat>, q: seq<Item<E>>, payload: E, accepted: seq<E>)
    requires QueueOk(q, accepted) && (forall i | 0 <= i < |q| :: q[i].Event?)
    requires |accepted| > 0 && payload == accepted[|accepted| - 1]
    requires Increasing(delivered + Numbers(q), |accepted| - 1)
    ensures var r := q + [Event(|accepted| - 1, payload)];
            && QueueOk(r, accepted) && |Numbers(r)| == |Numbers(q)| + 1
            && Increasing(delivered + Numbers(r), |accepted|)
  {
    var n := |accepted| - 1;
    NumbersSnoc(q, Event(n, payload));
    assert delivered + (Numbers(q) + [n]) == delivered + Numbers(q) + [n];
  }

  lemma AppendSentinel<E>(q: seq<Item<E>>, accepted: seq<E>)
    requires QueueOk(q, accepted) && forall i | 0 <= i < |q| :: q[i].Event?
    ensures QueueOk(q + [Sentinel], accepted) && Numbers(q + [Sentinel]) == Numbers(q)
    ensures (q + [Sentinel])[|q|] == Sentinel
  {
    NumbersSnoc(q, Sentinel);
    assert Numbers(q) + [] == Numbers(q);
  }

  lemma AcceptOne<E>(q: seq<Item<E>>, accepted: seq<E>, payload: E)
    requires QueueOk(q, accepted)
    ensures QueueOk(q, accepted + [payload])
  {
  }

  /** `received` lists the accepted events with the numbers `ns`. */
  ghost predicate Picked<E>(received: seq<E>, ns: seq<nat>, accepted: seq<E>) {
    |ns| == |received| && forall i | 0 <= i < |ns| :: ns[i] < |accepted| && received[i] == accepted[ns[i]]
  }

  /** What was received from place `from` on is what was accepted under the delivered numbers. */
  ghost predicate Received<E>(received: seq<E>, delivered: seq<nat>, from: nat, accepted: seq<E>) {
    from <= |delivered| && Picked(received, delivered[from..], accepted)
  }

  lemma ReceivedStays<E>(received: seq<E>, delivered: seq<nat>, from: nat, accepted: seq<E>, later: seq<E>)
    requires Received(received, delivered, from, accepted) && accepted <= later
    ensures Received(received, delivered, from, later)
  {
  }

  lemma ReceivedMore<E>(received: seq<E>, delivered: seq<nat>, from: nat, accepted: seq<E>, n: nat)
    requires Received(received, delivered, from, accepted) && n < |accepted|
    ensures Received(received + [accepted[n]], delivered + [n], from, accepted)
  {
    assert (delivered + [n])[from..] == delivered[from..] + [n];
  }

  predicate Offering<E>(h: Holder<E>) {
    h.Evicting? || h.Retrying?
  }

  predicate Closing<E>(h: Holder<E>) {
    h.ClosingEvict? || h.ClosingRetry?
  }

  // ---------- what each move does ----------

  /** What the source itself keeps of a subscription, and all that was accepted. */
  datatype View<E> = View(queue: seq<Item<E>>, dropped: nat, closed: bool, holder: Holder<E>, accepted: seq<E>)

  function WithoutOldest<E>(q: seq<Item<E>>): seq<Item<E>> {
    if q == [] then [] else q[1..]
  }

  function After<E(==)>(v: View<E>, move: Move<E>, maxsize: nat): View<E> {
    match move
    case StartOffer(p, selected) =>
      if v.holder != Free || !selected || v.closed then v
      else
        var w := v.(accepted := v.accepted + [p]);
        if |v.queue| < maxsize then w.(queue := v.queue + [Event(|v.accepted|, p)]) else w.(holder := Evicting(p))
    case StartFinish =>
      if v.holder != Free || v.closed then v
      else if |v.queue| < maxsize then v.(closed := true, queue := v.queue + [Sentinel])
      else v.(closed := true, holder := ClosingEvict)
    case Proceed =>
      (match v.holder
       case Free => v
       case Evicting(p) => v.(queue := WithoutOldest(v.queue), dropped := v.dropped + 1, holder := Retrying(p))
       case Retrying(p) => v.(queue := v.queue + [Event(Max(0, |v.accepted| - 1), p)], holder := Free)
       case ClosingEvict => v.(queue := WithoutOldest(v.queue), holder := ClosingRetry)
       case ClosingRetry => v.(queue := v.queue + [Sentinel], holder := Free))
    case Take => v.(queue := WithoutOldest(v.queue))
  }

  /** What the consumer gets. */
  function Hands<E>(v: View<E>, move: Move<E>): seq<E> {
    if move.Take? && v.queue != [] && v.queue[0].Event? then [v.queue[0].payload] else []
  }

  function Played<E(==)>(v: View<E>, script: seq<Move<E>>, n: nat, maxsize: nat): View<E>
    requires n <= |script|
  {
    if n == 0 then v else After(Played(v, script, n - 1, maxsize), script[n - 1], maxsize)
  }

  function HandedOut<E(==)>(v: View<E>, script: seq<Move<E>>, n: nat, maxsize: nat): seq<E>
    requires n <= |script|
  {
    if n == 0 then []
    else HandedOut(v, script, n - 1, maxsize) + Hands(Played(v, script, n - 1, maxsize), script[n - 1])
  }

  /** A whole offer: its first put and, after a full queue, the other two operations. */
  function Offered<E(==)>(v: View<E>, p: E, maxsize: nat): View<E> {
    After(After(After(v, StartOffer(p, true), maxsize), Proceed, maxsize), Proceed, maxsize)
  }

  function Burst<E(==)>(ps: seq<E>, maxsize: nat): View<E> {
    if ps == [] then View([], 0, false, Free, [])
    else Offered(Burst(ps[..|ps| - 1], maxsize), ps[|ps| - 1], maxsize)
  }

  function Latest<E>(ps: seq<E>, n: nat): seq<Item<E>>
    requires n <= |ps|
  {
    seq(n, i requires 0 <= i < n => Event(|ps| - n + i, ps[|ps| - n + i]))
  }

  /** Without a consumer, a burst leaves exactly the latest events that the queue holds, and counts all others. */
  lemma {:induction false} BurstKeepsLatest<E>(ps: seq<E>, maxsize: nat)
    requires 0 < maxsize
    ensures var n := Min(|ps|, maxsize);
            Burst(ps, maxsize) == View(Latest(ps, n), |ps| - n, false, Free, ps)
  {
    if ps != [] {
      var init := ps[..|ps| - 1];
      BurstKeepsLatest(init, maxsize);
      assert init + [ps[|ps| - 1]] == ps;
      WholeOffer(Burst(init, maxsize), ps[|ps| - 1], maxsize);
      OneLater(ps, maxsize);
    }
  }

  /** What a whole offer does to an open subscription: the oldest event makes room. */
  lemma WholeOffer<E>(v: View<E>, p: E, maxsize: nat)
    requires 0 < maxsize && v.holder == Free && !v.closed && |v.queue| <= maxsize
    ensures var full := |v.queue| == maxsize;
            Offered(v, p, maxsize) ==
              View((if full then v.queue[1..] else v.queue) + [Event(|v.accepted|, p)],
                   v.dropped + (if full then 1 else 0), false, Free, v.accepted + [p])
  {
  }

  lemma OneLater<E>(ps: seq<E>, maxsize: nat)
    requires 0 < maxsize && ps != []
    ensures var init := ps[..|ps| - 1];
            var was := Latest(init, Min(|init|, maxsize));
            Latest(ps, Min(|ps|, maxsize)) ==
              (if |was| == maxsize then was[1..] else was) + [Event(|init|, ps[|ps| - 1])]
  {
  }

  class Subscription<E(==)> {
    const maxsize: nat
    var queue: seq<Item<E>>
    var dropped: nat
    var closed: bool
    var holder: Holder<E>
    /** Events offered while open, those the consumer got (by number), those evicted, and sentinels put and taken. */
    var accepted: seq<E>
    ghost var delivered: seq<nat>
    ghost var lost: nat
    ghost var lostClosing: nat
    ghost var sentinels: nat
    ghost var ended: bool

    function Seen(): View<E>
      reads this
    {
      View(queue, dropped, closed, holder, accepted)
    }

    /** The accepted events that are neither delivered, queued nor in the hands of an offer are the lost ones. */
    ghost predicate Accounted()
      reads this
    {
      && |accepted| == |delivered| + |Numbers(queue)| + lost + lostClosing + (if Offering(holder) then 1 else 0)
      && lost <= dropped && lostClosing <= 1 && (lostClosing > 0 ==> closed && !holder.ClosingEvict?)
    }

    /** Delivered followed by queued is an in-order selection of the accepted events. */
    ghost predicate Ordered()
      reads this
    {
      && Increasing(delivered + Numbers(queue), |accepted| - if Offering(holder) then 1 else 0)
      && (Offering(holder) ==> |accepted| > 0 && holder.payload == accepted[|accepted| - 1])
    }

    ghost predicate Valid()
      reads this
    {
      && 0 < maxsize && |queue| <= maxsize && QueueOk(queue, accepted)
      && (holder.Retrying? || holder.ClosingRetry? ==> |queue| < maxsize)
      && (Offering(holder) ==> !closed) && (Closing(holder) ==> closed)
      && (Offering(holder) ==> |accepted| > 0)
      && Ordered() && Accounted()
      && sentinels == (if closed && !Closing(holder) then 1 else 0)
      && (sentinels == 0 ==> !ended && forall i | 0 <= i < |queue| :: queue[i].Event?)
      && (sentinels == 1 ==> if ended then queue == [] else queue != [] && queue[|queue| - 1].Sentinel?)
    }

    constructor (maxsize: nat)
      requires 0 < maxsize
      ensures Valid() && this.maxsize == maxsize && queue == [] && dropped == 0 && !closed && holder == Free
      ensures accepted == [] && delivered == []
    {
      this.maxsize := maxsize;
      queue, dropped, closed, holder := [], 0, false, Free;
      accepted, delivered, lost, lostClosing, sentinels, ended := [], [], 0, 0, 0, false;
    }

    /** `_offer` up to its first put; `selected` is the outcome of the agent filter. */
    method Offer(payload: E, selected: bool)
      requires Valid() && holder == Free
      modifies this
      ensures Valid() && dropped == old(dropped) && closed == old(closed) && delivered == old(delivered)
              && lost == old(lost)
      ensures !selected || closed ==> accepted == old(accepted) && queue == old(queue) && holder == Free
      ensures selected && !closed ==>
                && accepted == old(accepted) + [payload]
                && (if |old(queue)| < maxsize then holder == Free
                  && queue == old(queue) + [Event(|old(accepted)|, payload)]
                    else holder == Evicting(payload) && queue == old(queue))
    {
      if !selected || closed {
        return;
      }
      AcceptOne(queue, accepted, payload);
      accepted := accepted + [payload];
      if |queue| < maxsize {
        AppendEvent(delivered, queue, payload, accepted);
        queue := queue + [Event(|accepted| - 1, payload)];
      } else {
        holder := Evicting(payload);
      }
    }

    /** The `get_nowait` after a full queue; the consumer may have emptied it meanwhile. */
    method OfferEvict()
      requires Valid() && holder.Evicting?
      modifies this
      ensures Valid() && holder == Retrying(old(holder).payload) && dropped == old(dropped) + 1
      ensures accepted == old(accepted) && delivered == old(delivered) && closed == old(closed)
      ensures queue == if old(queue) == [] then [] else old(queue)[1..]
      ensures lost == old(lost) + if old(queue) == [] then 0 else 1
    {
      if queue != [] {
        DropFromMiddle(delivered, Numbers(queue), |accepted| - 1);
        queue := queue[1..];
        lost := lost + 1;
      }
      dropped := dropped + 1;
      holder := Retrying(holder.payload);
    }

    /** The second put of an offer: there is always room. */
    method OfferRetry()
      requires Valid() && holder.Retrying?
      modifies this
      ensures Valid() && holder == Free && dropped == old(dropped)
      ensures accepted == old(accepted) && delivered == old(delivered) && closed == old(closed) && lost == old(lost)
      ensures |accepted| > 0 && queue == old(queue) + [Event(|accepted| - 1, old(holder).payload)]
    {
      if |queue| < maxsize {
        AppendEvent(delivered, queue, holder.payload, accepted);
        queue := queue + [Event(|accepted| - 1, holder.payload)];
      } else {
        assert false;
      }
      holder := Free;
    }

    /** `_finish` up to its first put. */
    method Finish()
      requires Valid() && holder == Free
      modifies this
      ensures Valid() && closed && accepted == old(accepted) && delivered == old(delivered) && dropped == old(dropped)
      ensures old(closed) ==> queue == old(queue) && holder == Free
      ensures !old(closed) ==>
                if |old(queue)| < maxsize then queue == old(queue) + [Sentinel] && holder == Free
                else queue == old(queue) && holder == ClosingEvict
    {
      if closed {
        return;
      }
      closed := true;
      if |queue| < maxsize {
        AppendSentinel(queue, accepted);
        queue := queue + [Sentinel];
        sentinels := sentinels + 1;
      } else {
        holder := ClosingEvict;
      }
    }

    method FinishEvict()
      requires Valid() && holder == ClosingEvict
      modifies this
      ensures Valid() && holder == ClosingRetry && closed && dropped == old(dropped)
      ensures queue == if old(queue) == [] then [] else old(queue)[1..]
      ensures accepted == old(accepted) && delivered == old(delivered)
    {
      if queue != [] {
        DropFromMiddle(delivered, Numbers(queue), |accepted|);
        queue := queue[1..];
        lostClosing := lostClosing + 1;
      }
      holder := ClosingRetry;
    }

    method FinishRetry()
      requires Valid() && holder == ClosingRetry
      modifies this
      ensures Valid() && holder == Free && closed && queue == old(queue) + [Sentinel]
      ensures accepted == old(accepted) && delivered == old(delivered) && dropped == old(dropped)
    {
      if |queue| < maxsize {
        AppendSentinel(queue, accepted);
        queue := queue + [Sentinel];
        sentinels := sentinels + 1;
      } else {
        assert false;
      }
      holder := Free;
    }

    /** The consumer's `get` of a nonempty queue; it takes no lock. `None` is the closed subscription. */
    method Get() returns (r: Option<E>)
      requires Valid() && queue != []
      modifies this
      ensures Valid() && queue == old(queue)[1..] && holder == old(holder) && closed == old(closed)
      ensures accepted == old(accepted) && dropped == old(dropped) && lost == old(lost)
      ensures if old(queue)[0].Event? then
                r == Some(old(queue)[0].payload) && delivered == old(delivered) + [old(queue)[0].number]
              else r == None && delivered == old(delivered) && queue == []
      ensures r.Some? ==>
                && |delivered| > 0 && delivered[|delivered| - 1] < |accepted|
                && r.value == accepted[delivered[|delivered| - 1]]
    {
      var item := queue[0];
      QueuePop(queue, accepted);
      if item.Event? {
        TakeEvent(item);
        return Some(item.payload);
      }
      ended := true;
      queue := queue[1..];
      r := None;
    }

    method TakeEvent(item: Item<E>)
      requires Valid() && queue != [] && item == queue[0] && item.Event?
      modifies this`queue, this`delivered
      ensures Valid() && queue == old(queue)[1..] && delivered == old(delivered) + [item.number]
    {
      QueuePop(queue, accepted);
      ghost var rest := Numbers(queue[1..]);
      assert delivered + ([item.number] + rest) == (delivered + [item.number]) + rest;
      delivered := delivered + [item.number];
      queue := queue[1..];
    }

    /** One step of whoever holds the lock. */
    method ProceedHolder()
      requires Valid() && holder != Free
      modifies this
      ensures Valid() && delivered == old(delivered) && Seen() == After(old(Seen()), Proceed, maxsize)
    {
      match holder {
        case Evicting(_) => OfferEvict();
        case Retrying(_) => OfferRetry();
        case ClosingEvict => FinishEvict();
        case ClosingRetry => FinishRetry();
      }
    }

    /** An offer that nobody interrupts loses exactly as many events as it counts as dropped. */
    method OfferUninterrupted(payload: E, selected: bool)
      requires Valid() && holder == Free
      modifies this
      ensures Valid() && holder == Free && delivered == old(delivered)
      ensures lost - old(lost) == dropped - old(dropped)
      ensures selected && !old(closed) ==> accepted == old(accepted) + [payload]
    {
      Offer(payload, selected);
      if holder.Evicting? {
        OfferEvict();
        OfferRetry();
      }
    }

    /** One move of an interleaving; one that cannot be made is passed over. */
    method Make(move: Move<E>) returns (got: Option<E>)
      requires Valid()
      modifies this
      ensures Valid() && Seen() == After(old(Seen()), move, maxsize)
      ensures Hands(old(Seen()), move) == if got.Some? then [got.value] else []
      ensures old(accepted) <= accepted
      ensures if got.None? then delivered == old(delivered)
              else exists n | 0 <= n < |accepted| :: got.value == accepted[n] && delivered == old(delivered) + [n]
    {
      got := None;
      match move {
        case StartOffer(payload, selected) =>
          if holder == Free { Offer(payload, selected); }
        case StartFinish =>
          if holder == Free { Finish(); }
        case Proceed =>
          if holder != Free { ProceedHolder(); }
        case Take =>
          if queue != [] { got := Get(); }
      }
    }

    /**
      Any interleaving of offers, closes and the consumer.  Every state on the way is valid; what the
      consumer received is an in-order selection of the accepted events.
    */
    method Interleave(script: seq<Move<E>>) returns (received: seq<E>)
      requires Valid()
      modifies this
      ensures Valid() && old(delivered) <= delivered && Received(received, delivered, |old(delivered)|, accepted)
      ensures Seen() == Played(old(Seen()), script, |script|, maxsize)
      ensures received == HandedOut(old(Seen()), script, |script|, maxsize)
    {
      received := [];
      ghost var start := Seen();
      for k := 0 to |script|
        invariant Valid() && old(delivered) <= delivered && Received(received, delivered, |old(delivered)|, accepted)
        invariant Seen() == Played(start, script, k, maxsize) && received == HandedOut(start, script, k, maxsize)
      {
        ghost var accepted', delivered', from := accepted, delivered, |old(delivered)|;
        var got := Make(script[k]);
        ReceivedStays(received, delivered', from, accepted', accepted);
        if got.Some? {
          ReceivedMore(received, delivered', from, accepted, delivered[|delivered'|]);
          received := received + [got.value];
        }
      }
    }
  }

  datatype Move<E> = StartOffer(payload: E, selected: bool) | StartFinish | Proceed | Take

  /** Losing the oldest queued event keeps the rest in order. */
  lemma DropFromMiddle(a: seq<nat>, b: seq<nat>, below: int)
    requires Increasing(a + b, below) && b != []
    ensures Increasing(a + b[1..], below)
  {
    var s, t := a + b, a + b[1..];
    assert forall i | 0 <= i < |t| :: t[i] == s[if i < |a| then i else i + 1];
  }
}
