/**
  The fair merge of the local and the remote watch (sidecar/cli.py): two producers feed a bounded
  queue each while one loop drains both.  `scripts[i]` is everything producer `i` puts, in order;
  when its entries arrive is up to the environment.
*/
module WatchMerge {
  import opened Common

  datatype Entry<E> = Item(event: E) | Ready | Notice | Failure | Done

  /** How many entries arrive on each queue before an iteration, between its two looks, and during its two waits. */
  datatype Tick = Tick(before: seq<nat>, between: seq<nat>, first: seq<nat>, second: seq<nat>)

  /** One served entry, and whether the other queue had one waiting at that moment. */
  datatype Service = Service(source: nat, otherWaiting: bool)

  function Events<E>(s: seq<Entry<E>>): seq<E> {
    if s == [] then [] else (if s[0].Item? then [s[0].event] else []) + Events(s[1..])
  }

  lemma {:induction false} EventsSnoc<E>(s: seq<Entry<E>>, x: Entry<E>)
    ensures Events(s + [x]) == Events(s) + if x.Item? then [x.event] else []
  {
    if s == [] {
      assert s + [x] == [x] && [x][1..] == [];
    } else {
      assert (s + [x])[1..] == s[1..] + [x];
      EventsSnoc(s[1..], x);
      var first, last := if s[0].Item? then [s[0].event] else [], if x.Item? then [x.event] else [];
      assert first + (Events(s[1..]) + last) == first + Events(s[1..]) + last;
    }
  }

  /** What was written for one source. */
  function Projected<E>(output: seq<(nat, E)>, source: nat): seq<E> {
    if output == [] then []
    else Projected(output[..|output| - 1], source) + if output[|output| - 1].0
      == source then [output[|output| - 1].1] else []
  }

  lemma ProjectedSnoc<E>(output: seq<(nat, E)>, source: nat, e: E, i: nat)
    ensures Projected(output + [(source, e)], i) == Projected(output, i) + if source == i then [e] else []
  {
    assert (output + [(source, e)])[..|output|] == output;
  }

  /** A producer and its queue: everything it will put, how much it has put, how much was taken, and whether
      `Done` was taken. */
  datatype Source<E> = Source(script: seq<Entry<E>>, put: nat, taken: nat, ended: bool) {
    predicate Active() {
      script != [] && !ended
    }

    predicate Empty() {
      put == taken
    }

    predicate Waiting() {
      put > taken
    }

    predicate HasMore() {
      taken < |script|
    }
  }

  /** The queue is bounded, `ended` is right, and this source's part of the output is what was taken. */
  ghost predicate SourceOk<E>(s: Source<E>, capacity: nat, projected: seq<E>) {
    && Produces(s.script)
    && s.taken <= s.put <= |s.script| && s.put - s.taken <= capacity
    && (s.ended <==> s.script != [] && s.taken == |s.script|)
    && projected == Events(s.script[..s.taken])
  }

  function Take<E>(s: Source<E>): Source<E>
    requires s.taken < |s.script|
  {
    s.(taken := s.taken + 1, ended := s.ended || s.script[s.taken].Done?)
  }

  lemma TakeOne<E>(s: Source<E>, capacity: nat, projected: seq<E>)
    requires SourceOk(s, capacity, projected) && s.Waiting()
    ensures var x := s.script[s.taken];
            SourceOk(Take(s), capacity, projected + if x.Item? then [x.event] else [])
  {
    assert s.script[..s.taken + 1] == s.script[..s.taken] + [s.script[s.taken]];
    EventsSnoc(s.script[..s.taken], s.script[s.taken]);
  }

  lemma PutSome<E>(s: Source<E>, put: nat, capacity: nat, projected: seq<E>)
    requires SourceOk(s, capacity, projected) && s.put <= put <= |s.script| && put - s.taken <= capacity
    ensures SourceOk(s.(put := put), capacity, projected)
  {
  }

  lemma ServeOne(served: seq<Service>, source: nat, waiting: bool)
    requires Fair(served) && source < 2
    requires served != [] && served[|served| - 1].otherWaiting ==> source == 1 - served[|served| - 1].source
    ensures Fair(served + [Service(source, waiting)])
  {
  }

  /** A producer that was started ends with its only `Done`; one that was not puts nothing. */
  ghost predicate Produces<E>(s: seq<Entry<E>>) {
    s != [] ==> s[|s| - 1].Done? && forall i | 0 <= i < |s| - 1 :: !s[i].Done?
  }

  /** After an entry that left the other source waiting, the other source is next. */
  ghost predicate Fair(served: seq<Service>) {
    && (forall k | 0 <= k < |served| :: served[k].source < 2)
    && forall k | 0 <= k < |served| - 1 :: served[k].otherWaiting ==> served[k + 1].source == 1 - served[k].source
  }

  /** Entries arrived; nothing was taken. */
  ghost predicate Filled<E>(before: seq<Source<E>>, after: seq<Source<E>>) {
    && |before| == |after| == 2
    && forall i | 0 <= i < 2 :: after[i] == before[i].(put := after[i].put) && after[i].put >= before[i].put
  }

  /** At least one entry for each queue. */
  predicate Feeds(ns: seq<nat>) {
    |ns| == 2 && ns[0] > 0 && ns[1] > 0
  }

  /** No queue is empty while its producer has something left. */
  predicate Supplied<E>(sources: seq<Source<E>>) {
    && |sources| == 2
    && (sources[0].taken < |sources[0].script| ==> sources[0].Waiting())
    && (sources[1].taken < |sources[1].script| ==> sources[1].Waiting())
  }

  ghost function Taken<E>(sources: seq<Source<E>>): nat
    requires |sources| == 2
  {
    sources[0].taken + sources[1].taken
  }

  lemma FilledKeeps<E>(a: seq<Source<E>>, b: seq<Source<E>>)
    requires Filled(a, b)
    ensures a[0].HasMore() == b[0].HasMore() && a[1].HasMore() == b[1].HasMore()
    ensures (a[0].Waiting() ==> b[0].Waiting()) && (a[1].Waiting() ==> b[1].Waiting())
  {
  }

  lemma FilledTwice<E>(a: seq<Source<E>>, b: seq<Source<E>>, c: seq<Source<E>>)
    requires Filled(a, b) && Filled(b, c)
    ensures Filled(a, c)
  {
  }

  class Merge<E> {
    const capacity: nat
    var sources: seq<Source<E>>
    var cursor: nat
    var output: seq<(nat, E)>
    ghost var served: seq<Service>

    ghost predicate QueuesValid()
      reads this
    {
      && 0 < capacity && |sources| == 2
      && SourceOk(sources[0], capacity, Projected(output, 0)) && SourceOk(sources[1], capacity, Projected(output, 1))
    }

    /** The cursor points away from the source served last, which has something waiting if it had then. */
    ghost predicate TurnValid()
      reads this
    {
      && cursor < 2 && |sources| == 2 && Fair(served)
      && (served != [] ==> cursor == 1 - served[|served| - 1].source)
      && (served != [] && served[|served| - 1].otherWaiting ==> sources[cursor].Waiting())
    }

    ghost predicate Valid()
      reads this
    {
      QueuesValid() && TurnValid()
    }

    constructor (local: seq<Entry<E>>, remote: seq<Entry<E>>, capacity: nat)
      requires Produces(local) && Produces(remote) && 0 < capacity
      ensures Valid() && sources == [Source(local, 0, 0, false), Source(remote, 0, 0, false)]
      ensures this.capacity == capacity && output == [] && served == []
    {
      this.capacity := capacity;
      sources, cursor := [Source(local, 0, 0, false), Source(remote, 0, 0, false)], 0;
      output, served := [], [];
    }

    /** Up to `n` entries are put on queue `i`; a full queue makes the producer wait. */
    method Arrive(i: nat, n: nat)
      requires Valid() && i < 2
      modifies this`sources
      ensures Valid() && sources == old(sources)[i := old(sources)[i].(put := sources[i].put)]
              && sources[i].put >= old(sources)[i].put
      ensures n > 0 && sources[i].taken < |sources[i].script| ==> sources[i].Waiting()
      ensures var s := old(sources)[i]; sources[i].put == Min(s.put + n, Min(|s.script|, s.taken + capacity))
    {
      var s := sources[i];
      var room := Min(capacity - (s.put - s.taken), |s.script| - s.put);
      PutSome(s, s.put + Min(n, room), capacity, Projected(output, i));
      sources := sources[i := s.(put := s.put + Min(n, room))];
    }

    method ArriveBoth(ns: seq<nat>)
      requires Valid()
      modifies this`sources
      ensures Valid() && Filled(old(sources), sources)
      ensures Feeds(ns) ==> Supplied(sources)
    {
      if |ns| == 2 {
        Arrive(0, ns[0]);
        Arrive(1, ns[1]);
      }
    }

    /** `_next_watch_entry`: first whatever is there, the cursor's queue before the other; else wait on each in
        turn, unless nothing can come.  Entries arrive at any point in between. */
    method Choose(tick: Tick) returns (source: int)
      requires Valid()
      modifies this`sources
      ensures Valid() && Filled(old(sources), sources) && -1 <= source < 2
      ensures source >= 0 ==> sources[source].Waiting()
      ensures old(sources)[cursor].Waiting() ==> source == cursor && sources == old(sources)
      ensures source < 0 ==> !old(sources)[0].Waiting() && !old(sources)[1].Waiting()
      ensures Feeds(tick.first) && old(sources)[cursor].HasMore() ==> source >= 0
      ensures Feeds(tick.second) && old(sources)[1 - cursor].HasMore() ==> source >= 0
    {
      if !sources[cursor].Empty() {
        return cursor;
      }
      ghost var start := sources;
      ArriveBoth(tick.between);
      FilledKeeps(start, sources);
      if !sources[1 - cursor].Empty() {
        return 1 - cursor;
      }
      ghost var mid := sources;
      source := AwaitEither(tick);
      FilledTwice(start, mid, sources);
    }

    /** The second half of `_next_watch_entry`. */
    method AwaitEither(tick: Tick) returns (source: int)
      requires Valid()
      modifies this`sources
      ensures Valid() && Filled(old(sources), sources) && -1 <= source < 2
      ensures source >= 0 ==> sources[source].Waiting()
      ensures Feeds(tick.first) && old(sources)[cursor].HasMore() ==> source == cursor
      ensures Feeds(tick.second) && old(sources)[1 - cursor].HasMore() ==> source >= 0
    {
      var found := Await(cursor, tick.first);
      if found {
        return cursor;
      }
      ghost var start, mid := old(sources), sources;
      FilledKeeps(start, mid);
      found := Await(1 - cursor, tick.second);
      FilledTwice(start, mid, sources);
      return if found then 1 - cursor else -1;
    }

    /** `get` with a timeout on queue `i`, left out when nothing can come. */
    method Await(i: nat, ns: seq<nat>) returns (found: bool)
      requires Valid() && i < 2
      modifies this`sources
      ensures Valid() && Filled(old(sources), sources) && (found <==> sources[i].Waiting())
      ensures !old(sources)[i].Active() && old(sources)[i].Empty() ==> !found && sources == old(sources)
      ensures Feeds(ns) && old(sources)[i].HasMore() ==> found
    {
      if !sources[i].Active() && sources[i].Empty() {
        return false;
      }
      ArriveBoth(ns);
      found := !sources[i].Empty();
    }

    /** The entry is taken off its queue and, if it is an event, written. */
    method Write(source: nat)
      requires QueuesValid() && source < 2 && sources[source].Waiting()
      modifies this`sources, this`output
      ensures QueuesValid() && sources == old(sources)[source := Take(old(sources)[source])]
    {
      var s := sources[source];
      var entry := s.script[s.taken];
      TakeOne(s, capacity, Projected(output, source));
      sources := sources[source := Take(s)];
      if entry.Item? {
        ProjectedSnoc(output, source, entry.event, 0);
        ProjectedSnoc(output, source, entry.event, 1);
        output := output + [(source, entry.event)];
      }
    }

    /** Takes one entry off queue `source`, acts on it, and turns to the other source. */
    method Serve(source: nat)
      requires Valid() && source < 2 && sources[source].Waiting()
      requires served != [] && served[|served| - 1].otherWaiting ==> source == cursor
      modifies this
      ensures Valid() && cursor == 1 - source && |served| == |old(served)| + 1
      ensures sources == old(sources)[source := Take(old(sources)[source])]
    {
      ServeOne(served, source, sources[1 - source].Waiting());
      served := served + [Service(source, sources[1 - source].Waiting())];
      cursor := 1 - source;
      Write(source);
    }

    /** One iteration. */
    method Iterate(tick: Tick)
      requires Valid()
      modifies this
      ensures Valid() && SameScripts()
      ensures old(sources)[0].Waiting() || old(sources)[1].Waiting() ==>
                |served| == |old(served)| + 1 && Taken(sources) == Taken(old(sources)) + 1
    {
      var source := Choose(tick);
      if source >= 0 {
        Serve(source);
      }
    }

    /** Whatever arrived before it, and then one iteration. */
    method Round(tick: Tick)
      requires Valid()
      modifies this
      ensures Valid() && SameScripts()
      ensures old(sources)[0].Waiting() || old(sources)[1].Waiting() ==> |served| == |old(served)| + 1
      ensures Feeds(tick.before) && !old(Quiet()) ==> Taken(sources) == Taken(old(sources)) + 1
    {
      ArriveBoth(tick.before);
      if !Quiet() {
        Iterate(tick);
      }
    }

    twostate predicate SameScripts()
      reads this
    {
      |old(sources)| == |sources| == 2 && sources[0].script == old(sources)[0].script
        && sources[1].script == old(sources)[1].script
    }

    /** The condition under which the loop ends. */
    predicate Quiet()
      requires |sources| == 2
      reads this
    {
      !sources[0].Active() && !sources[1].Active() && sources[0].Empty() && sources[1].Empty()
    }

    /**
      The drain loop.  In every run the output projected to a source is an initial part of that source's
      events, in order, and no waiting source is passed over twice.  When the loop ends by itself, every
      started producer has sent `Done`, both queues are empty, and the output is complete; and it does end
      when the producers keep feeding their queues.
    */
    method Drain(ticks: seq<Tick>) returns (finished: bool)
      requires Valid()
      modifies this
      ensures Valid() && SameScripts() && (finished ==> Quiet())
      ensures Projected(output, 0) <= Events(sources[0].script) && Projected(output, 1) <= Events(sources[1].script)
      ensures finished ==>
                Projected(output, 0) == Events(sources[0].script) && Projected(output, 1) == Events(sources[1].script)
      ensures (forall k | 0 <= k < |ticks| :: Feeds(ticks[k].before)) ==>
                |ticks| >= |sources[0].script| + |sources[1].script| ==> finished
    {
      var k := 0;
      finished := Quiet();
      while k < |ticks| && !finished
        invariant Valid() && SameScripts() && finished == Quiet() && k <= |ticks|
        invariant (forall j | 0 <= j < k :: Feeds(ticks[j].before)) && !finished ==> Taken(sources) >= k
        decreases |ticks| - k
      {
        Round(ticks[k]);
        finished := Quiet();
        k := k + 1;
      }
      InOrder(sources[0], capacity, Projected(output, 0));
      InOrder(sources[1], capacity, Projected(output, 1));
    }
  }

  lemma InOrder<E>(s: Source<E>, capacity: nat, projected: seq<E>)
    requires SourceOk(s, capacity, projected)
    ensures projected <= Events(s.script)
    ensures !s.Active() ==> projected == Events(s.script)
  {
    EventsPrefix(s.script, s.taken);
    assert s.script[..|s.script|] == s.script;
  }

  lemma {:induction false} EventsPrefix<E>(s: seq<Entry<E>>, n: nat)
    requires n <= |s|
    ensures Events(s[..n]) <= Events(s)
  {
    if n > 0 {
      EventsPrefix(s[1..], n - 1);
      assert s[..n][1..] == s[1..][..n - 1];
    }
  }
}
