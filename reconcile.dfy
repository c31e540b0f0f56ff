/** The step walk of the event handler, as a specification on values: the steps'
    contents are a map from step object to its value (so a step object that occurs
    twice in the list is visited twice, as in the program), the datastore is a map
    from key to flag, and the calls made to the datastore are an ordered trace. */
module Reconcile {
  import opened Steps
  import opened Messages

  /** A call the bot makes to the datastore or the messaging service. */
  datatype Effect = Lookup(key: string) | Write(key: string, value: bool) | Send(message: Message)

  /** The datastore key of a user's completion flag for an event: the plain concatenation. */
  function StoreKey(user: string, event: string): string
  {
    user + event
  }

  /** A lookup of `key` returns a truthy value. */
  predicate Flagged(store: map<string, bool>, key: string)
  {
    key in store && store[key]
  }

  /** The state the walk threads through its steps. */
  datatype WalkState = WalkState(heap: map<Step, StepValue>, store: map<string, bool>, effects: seq<Effect>)

  predicate Covers(steps: seq<Step>, heap: map<Step, StepValue>)
  {
    forall s :: s in steps ==> s in heap
  }

  /** One step of the walk: look up the step's flag; a truthy flag marks the step;
      otherwise a step whose event is the one that happened is marked and its flag
      written as true; any other step is left alone. */
  function Visit(user: string, eventType: string, s: Step, w: WalkState): (r: WalkState)
    requires s in w.heap
    ensures r.heap.Keys == w.heap.Keys
  {
    var v := w.heap[s];
    var key := StoreKey(user, v.event);
    var looked := w.effects + [Lookup(key)];
    if Flagged(w.store, key) then
      WalkState(w.heap[s := Mark(v)], w.store, looked)
    else if v.event == eventType then
      WalkState(w.heap[s := Mark(v)], w.store[key := true], looked + [Write(key, true)])
    else
      WalkState(w.heap, w.store, looked)
  }

  /** The walk over the steps in index order. */
  function Walk(user: string, eventType: string, steps: seq<Step>, w: WalkState): (r: WalkState)
    requires Covers(steps, w.heap)
    ensures r.heap.Keys == w.heap.Keys
    decreases |steps|
  {
    if steps == [] then w
    else Visit(user, eventType, steps[|steps| - 1], Walk(user, eventType, steps[..|steps| - 1], w))
  }

  /** Walking one more step of the list is one more visit after the shorter walk. */
  lemma WalkPrefix(user: string, eventType: string, steps: seq<Step>, i: nat, w: WalkState)
    requires i < |steps| && Covers(steps, w.heap)
    ensures Covers(steps[..i], w.heap) && Covers(steps[..i + 1], w.heap)
    ensures Walk(user, eventType, steps[..i + 1], w) ==
      Visit(user, eventType, steps[i], Walk(user, eventType, steps[..i], w))
  {
    assert steps[..i + 1][..i] == steps[..i];
    assert forall s :: s in steps[..i + 1] ==> s in steps;
  }

  /** The keys looked up, in the order of the lookups. */
  function Lookups(es: seq<Effect>): seq<string>
  {
    if es == [] then []
    else Lookups(es[..|es| - 1]) + (if es[|es| - 1].Lookup? then [es[|es| - 1].key] else [])
  }

  /** The writes made, in order. */
  function Writes(es: seq<Effect>): seq<Effect>
  {
    if es == [] then []
    else Writes(es[..|es| - 1]) + (if es[|es| - 1].Write? then [es[|es| - 1]] else [])
  }

  /** The flag keys of the steps, one per step, in index order. */
  function StepKeys(user: string, steps: seq<Step>, heap: map<Step, StepValue>): (keys: seq<string>)
    requires Covers(steps, heap)
    ensures |keys| == |steps|
    ensures forall i :: 0 <= i < |steps| ==> keys[i] == StoreKey(user, heap[steps[i]].event)
  {
    if steps == [] then []
    else StepKeys(user, steps[..|steps| - 1], heap) + [StoreKey(user, heap[steps[|steps| - 1]].event)]
  }

  /** Some step of the list is tagged with the event. */
  predicate Matches(eventType: string, steps: seq<Step>, heap: map<Step, StepValue>)
    requires Covers(steps, heap)
  {
    exists i :: 0 <= i < |steps| && heap[steps[i]].event == eventType
  }

  /** The walk writes the flag of the event that happened: a step is tagged with it
      and the flag is not set yet. */
  predicate NeedsWrite(user: string, eventType: string, steps: seq<Step>, w: WalkState)
    requires Covers(steps, w.heap)
  {
    Matches(eventType, steps, w.heap) && !Flagged(w.store, StoreKey(user, eventType))
  }

  /** What a single visit makes of a step whose flag was read from `store`. */
  function Outcome(user: string, eventType: string, store: map<string, bool>, v: StepValue): StepValue
  {
    if Flagged(store, StoreKey(user, v.event)) || v.event == eventType then Mark(v) else v
  }

  /** Unrelated users' keys can coincide: the key does not determine the user. */
  lemma KeysCollide()
    ensures StoreKey("U1", "0star_added") == StoreKey("U10", "star_added")
  {
  }

  /** For one user, the key determines the event. */
  lemma StoreKeyInjective(user: string, a: string, b: string)
    ensures StoreKey(user, a) == StoreKey(user, b) <==> a == b
  {
    if StoreKey(user, a) == StoreKey(user, b) {
      assert a == StoreKey(user, a)[|user|..];
      assert b == StoreKey(user, b)[|user|..];
    }
  }

  lemma LookupsSnoc(es: seq<Effect>, e: Effect)
    ensures Lookups(es + [e]) == Lookups(es) + if e.Lookup? then [e.key] else []
  {
    assert (es + [e])[..|es|] == es;
  }

  lemma WritesSnoc(es: seq<Effect>, e: Effect)
    ensures Writes(es + [e]) == Writes(es) + if e.Write? then [e] else []
  {
    assert (es + [e])[..|es|] == es;
  }

  /** One visit: one lookup of the step's key, and a write of true under that key
      exactly when the flag was not set and the step is tagged with the event. */
  lemma VisitCalls(user: string, eventType: string, s: Step, w: WalkState)
    requires s in w.heap
    ensures var key := StoreKey(user, w.heap[s].event);
      var writes := !Flagged(w.store, key) && w.heap[s].event == eventType;
      var r := Visit(user, eventType, s, w);
      r.store == (if writes then w.store[key := true] else w.store) &&
      Lookups(r.effects) == Lookups(w.effects) + [key] &&
      Writes(r.effects) == Writes(w.effects) + (if writes then [Write(key, true)] else []) &&
      |r.effects| == |w.effects| + 1 + (if writes then 1 else 0)
  {
    var key := StoreKey(user, w.heap[s].event);
    LookupsSnoc(w.effects, Lookup(key));
    WritesSnoc(w.effects, Lookup(key));
    LookupsSnoc(w.effects + [Lookup(key)], Write(key, true));
    WritesSnoc(w.effects + [Lookup(key)], Write(key, true));
  }

  lemma MatchesSnoc(eventType: string, steps: seq<Step>, heap: map<Step, StepValue>)
    requires Covers(steps, heap) && steps != []
    ensures Matches(eventType, steps, heap) <==>
      Matches(eventType, steps[..|steps| - 1], heap) || heap[steps[|steps| - 1]].event == eventType
  {
    var prefix := steps[..|steps| - 1];
    if Matches(eventType, steps, heap) {
      var i :| 0 <= i < |steps| && heap[steps[i]].event == eventType;
      if i < |prefix| { assert prefix[i] == steps[i]; }
    }
    if Matches(eventType, prefix, heap) {
      var i :| 0 <= i < |prefix| && heap[prefix[i]].event == eventType;
      assert steps[i] == prefix[i];
    }
  }

  /** The walk changes no event tag and never clears `completed`; a step it changes
      ends completed in the done colour; a step not in the list is untouched. */
  lemma {:induction false} WalkOnlyMarks(user: string, eventType: string, steps: seq<Step>, w: WalkState)
    requires Covers(steps, w.heap)
    ensures var r := Walk(user, eventType, steps, w);
      forall o :: o in w.heap ==>
        r.heap[o].event == w.heap[o].event &&
        (w.heap[o].completed ==> r.heap[o].completed) &&
        (r.heap[o] == w.heap[o] || (r.heap[o].completed && r.heap[o].color == DoneColor)) &&
        (o !in steps ==> r.heap[o] == w.heap[o])
  {
    if steps != [] {
      var prefix, s := steps[..|steps| - 1], steps[|steps| - 1];
      var mid := Walk(user, eventType, prefix, w);
      WalkOnlyMarks(user, eventType, prefix, w);
      VisitMarks(user, eventType, s, mid);
      forall o | o in w.heap && o !in steps
        ensures o !in prefix && o != s
      {
        assert forall t :: t in prefix ==> t in steps;
      }
    }
  }

  /** One visit either leaves the contents alone or marks the visited step. */
  lemma VisitMarks(user: string, eventType: string, s: Step, w: WalkState)
    requires s in w.heap
    ensures Visit(user, eventType, s, w).heap == w.heap ||
            Visit(user, eventType, s, w).heap == w.heap[s := Mark(w.heap[s])]
  {
  }

  /** The walk writes the store at most once: the event's flag, set to true, exactly
      when some step is tagged with the event and the flag was not set. */
  lemma {:induction false} WalkStore(user: string, eventType: string, steps: seq<Step>, w: WalkState)
    requires Covers(steps, w.heap)
    ensures var r := Walk(user, eventType, steps, w);
      r.store == if NeedsWrite(user, eventType, steps, w) then w.store[StoreKey(user, eventType) := true] else w.store
    ensures var r := Walk(user, eventType, steps, w);
      Writes(r.effects) ==
        Writes(w.effects) + if NeedsWrite(user, eventType, steps, w) then [Write(StoreKey(user, eventType), true)] else []
  {
    if steps != [] {
      var n := |steps| - 1;
      var prefix, s := steps[..n], steps[n];
      var mid := Walk(user, eventType, prefix, w);
      WalkStore(user, eventType, prefix, w);
      WalkOnlyMarks(user, eventType, prefix, w);
      MatchesSnoc(eventType, steps, w.heap);
      VisitCalls(user, eventType, s, mid);
      StoreKeyInjective(user, w.heap[s].event, eventType);
    }
  }

  /** The flags only grow: a set flag stays set, and the only key that can change
      is the event's, which becomes true. */
  lemma WalkStoreMonotone(user: string, eventType: string, steps: seq<Step>, w: WalkState)
    requires Covers(steps, w.heap)
    ensures var r := Walk(user, eventType, steps, w);
      forall k :: Flagged(w.store, k) ==> Flagged(r.store, k)
    ensures var r := Walk(user, eventType, steps, w);
      forall k :: k in r.store ==>
        (k in w.store && r.store[k] == w.store[k]) || (k == StoreKey(user, eventType) && r.store[k])
  {
    WalkStore(user, eventType, steps, w);
  }

  /** The walk makes exactly one lookup per step, in index order, each of the step's
      own key, and besides those only the writes above. */
  lemma {:induction false} WalkLookups(user: string, eventType: string, steps: seq<Step>, w: WalkState)
    requires Covers(steps, w.heap)
    ensures var r := Walk(user, eventType, steps, w);
      Lookups(r.effects) == Lookups(w.effects) + StepKeys(user, steps, w.heap)
    ensures var r := Walk(user, eventType, steps, w);
      |r.effects| == |w.effects| + |steps| + if NeedsWrite(user, eventType, steps, w) then 1 else 0
  {
    if steps != [] {
      var n := |steps| - 1;
      var prefix, s := steps[..n], steps[n];
      var mid := Walk(user, eventType, prefix, w);
      WalkLookups(user, eventType, prefix, w);
      WalkStore(user, eventType, prefix, w);
      WalkOnlyMarks(user, eventType, prefix, w);
      MatchesSnoc(eventType, steps, w.heap);
      VisitCalls(user, eventType, s, mid);
      StoreKeyInjective(user, w.heap[s].event, eventType);
      assert StepKeys(user, steps, w.heap) == StepKeys(user, prefix, w.heap) + [StoreKey(user, w.heap[s].event)];
    }
  }

  /** Every step ends completed in the done colour when its flag was set or it is
      tagged with the event, and is left exactly as it was otherwise. */
  lemma {:induction false} WalkOutcome(user: string, eventType: string, steps: seq<Step>, w: WalkState)
    requires Covers(steps, w.heap)
    ensures var r := Walk(user, eventType, steps, w);
      forall o :: o in steps ==>
        if Flagged(w.store, StoreKey(user, w.heap[o].event)) || w.heap[o].event == eventType
        then r.heap[o].completed && r.heap[o].color == DoneColor
        else r.heap[o] == w.heap[o]
  {
    if steps != [] {
      var n := |steps| - 1;
      var prefix, s := steps[..n], steps[n];
      var mid := Walk(user, eventType, prefix, w);
      WalkOutcome(user, eventType, prefix, w);
      WalkOnlyMarks(user, eventType, prefix, w);
      WalkStore(user, eventType, prefix, w);
      var e := w.heap[s].event;
      StoreKeyInjective(user, e, eventType);
      assert Flagged(mid.store, StoreKey(user, e)) <==> Flagged(w.store, StoreKey(user, e)) || (e == eventType && NeedsWrite(user, eventType, prefix, w));
      assert !(Flagged(w.store, StoreKey(user, e)) || e == eventType) ==> mid.heap[s] == w.heap[s];
      forall o | o in steps
        ensures o in prefix || o == s
      {
        var i :| 0 <= i < |steps| && steps[i] == o;
        if i < n { assert prefix[i] == o; }
      }
    }
  }

  /** Steps occur once each in the list. */
  predicate Distinct(steps: seq<Step>)
  {
    forall i, j :: 0 <= i < j < |steps| ==> steps[i] != steps[j]
  }

  /** With each step occurring once, each step ends exactly as one visit against
      the flags before the walk leaves it: whatever earlier steps wrote does not
      change what a later step reads. */
  lemma {:induction false} WalkDistinct(user: string, eventType: string, steps: seq<Step>, w: WalkState)
    requires Covers(steps, w.heap) && Distinct(steps)
    ensures forall o :: o in steps ==>
      Walk(user, eventType, steps, w).heap[o] == Outcome(user, eventType, w.store, w.heap[o])
  {
    if steps != [] {
      var n := |steps| - 1;
      var prefix, s := steps[..n], steps[n];
      assert s !in prefix;
      WalkDistinct(user, eventType, prefix, w);
      WalkOnlyMarks(user, eventType, prefix, w);
      WalkStore(user, eventType, prefix, w);
      var e := w.heap[s].event;
      StoreKeyInjective(user, e, eventType);
      forall o | o in steps
        ensures o in prefix || o == s
      {
        var i :| 0 <= i < |steps| && steps[i] == o;
        if i < n { assert prefix[i] == o; }
      }
    }
  }

  /** Running the walk again from where it ended writes nothing more: the flags stay
      as the first run left them. */
  lemma RerunStoreUnchanged(user: string, eventType: string, steps: seq<Step>, w: WalkState)
    requires Covers(steps, w.heap)
    ensures Covers(steps, Walk(user, eventType, steps, w).heap)
    ensures var r1 := Walk(user, eventType, steps, w);
      var r2 := Walk(user, eventType, steps, r1);
      r2.store == r1.store && Writes(r2.effects) == Writes(r1.effects)
  {
    var r1 := Walk(user, eventType, steps, w);
    WalkStore(user, eventType, steps, w);
    WalkOnlyMarks(user, eventType, steps, w);
    WalkStore(user, eventType, steps, r1);
    assert Matches(eventType, steps, r1.heap) == Matches(eventType, steps, w.heap) by {
      assert forall i :: 0 <= i < |steps| ==> r1.heap[steps[i]].event == w.heap[steps[i]].event;
    }
  }

  /** The title is not idempotent: a step marked by one run gets a second suffix from
      a second run, so two runs do not leave the steps as one run does. */
  lemma RerunAppendsAgain(user: string, eventType: string, steps: seq<Step>, w: WalkState, o: Step)
    requires Covers(steps, w.heap) && Distinct(steps) && o in steps
    requires Flagged(w.store, StoreKey(user, w.heap[o].event)) || w.heap[o].event == eventType
    ensures Covers(steps, Walk(user, eventType, steps, w).heap)
    ensures var r1 := Walk(user, eventType, steps, w);
      var r2 := Walk(user, eventType, steps, r1);
      r2.heap[o].title == w.heap[o].title + CheckMark + CheckMark && r2.heap != r1.heap
  {
    var r1 := Walk(user, eventType, steps, w);
    WalkDistinct(user, eventType, steps, w);
    WalkStoreMonotone(user, eventType, steps, w);
    WalkDistinct(user, eventType, steps, r1);
    var r2 := Walk(user, eventType, steps, r1);
    assert r2.heap[o].title == r1.heap[o].title + CheckMark;
    assert |r2.heap[o].title| > |r1.heap[o].title|;
  }

  /** A user with no flags whose checklist is a pin step then a star step pins an
      item: both keys are looked up in order, only the pin step is marked and only
      its flag is written. Pinning again looks up the same keys, marks the pin step
      from its flag (a second suffix) and writes nothing. */
  lemma PinAddedTwice(pin: Step, star: Step, p: StepValue, s: StepValue)
    requires pin != star && p.event == "pin_added" && s.event == "star_added"
    ensures var steps := [pin, star];
      var r1 := Walk("U1", "pin_added", steps, WalkState(map[pin := p, star := s], map[], []));
      var r2 := Walk("U1", "pin_added", steps, WalkState(r1.heap, r1.store, []));
      r1 == WalkState(map[pin := Mark(p), star := s], map["U1pin_added" := true],
                      [Lookup("U1pin_added"), Write("U1pin_added", true), Lookup("U1star_added")]) &&
      r2 == WalkState(map[pin := Mark(Mark(p)), star := s], map["U1pin_added" := true],
                      [Lookup("U1pin_added"), Lookup("U1star_added")])
  {
    var steps := [pin, star];
    assert steps[..1] == [pin] && [pin][..0] == [];
    var pk, sk := StoreKey("U1", "pin_added"), StoreKey("U1", "star_added");
    assert pk == "U1pin_added" && sk == "U1star_added" && pk != sk;
    var w0 := WalkState(map[pin := p, star := s], map[], []);
    var a := Visit("U1", "pin_added", pin, w0);
    assert a == WalkState(map[pin := Mark(p), star := s], map[pk := true], [Lookup(pk), Write(pk, true)]);
    assert Walk("U1", "pin_added", [pin], w0) == a;
    var r1 := Visit("U1", "pin_added", star, a);
    assert r1 == WalkState(map[pin := Mark(p), star := s], map[pk := true], [Lookup(pk), Write(pk, true), Lookup(sk)]);
    var v0 := WalkState(r1.heap, r1.store, []);
    var b := Visit("U1", "pin_added", pin, v0);
    assert b == WalkState(map[pin := Mark(Mark(p)), star := s], map[pk := true], [Lookup(pk)]);
    assert Walk("U1", "pin_added", [pin], v0) == b;
  }
}
