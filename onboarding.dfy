/** The bot's event handling: state that lives for the whole process (the datastore
    of completion flags and the per-user cache of the message last sent), and the
    handler that rebuilds a user's message, walks its steps against the datastore
    and sends it. */
module Onboarding {
  import opened Steps
  import opened Messages
  import opened Reconcile

  /** The events the handler is registered for. */
  const TrackedEvents: set<string> := {"star_added", "pin_added", "reaction_added"}

  /** What the messaging service answers to a send. */
  datatype Reply = Delivered(ts: string, channel: string) | Rejected(reason: string)

  /** How a run of the handler ended. */
  datatype RunOutcome =
    | NotRouted    // the event is not one the handler is registered for
    | NoStepList   // the message has no step list: indexing it throws before any call
    | SendFailed   // the send was rejected; nothing is cached
    | Cached       // the send succeeded and the sent message is cached for the user

  /** The current contents of each step object of the list. */
  ghost function HeapOf(steps: seq<Step>): (h: map<Step, StepValue>)
    reads steps
    ensures Covers(steps, h)
  {
    map s | s in steps :: s.Value()
  }

  class Bot {
    /** The welcome template; its step objects are shared with every message built
        from it while the user has no cached message. */
    const welcome: Message
    /** The datastore, as far as completion flags go. */
    var store: map<string, bool>
    /** The message last sent to each user. */
    var users: map<string, Message>
    /** The calls made to the datastore and the messaging service, in order. */
    ghost var trace: seq<Effect>

    constructor (welcome: Message, store: map<string, bool>)
      ensures this.welcome == welcome && this.store == store
      ensures users == map[] && trace == []
    {
      this.welcome := welcome;
      this.store := store;
      users := map[];
      trace := [];
    }

    /** One step of the walk, done in place: the lookup of the step's flag, the
        marking, and the write of a new completion, as `Visit` specifies them. */
    method VisitStep(user: string, eventType: string, s: Step,
                     ghost steps: seq<Step>, ghost w: WalkState, ghost start: seq<Effect>)
      requires s in steps && Covers(steps, w.heap)
      requires forall t :: t in steps ==> t.Value() == w.heap[t]
      requires store == w.store && trace == start + w.effects
      modifies this`store, this`trace, s
      ensures forall t :: t in steps ==> t.Value() == Visit(user, eventType, s, w).heap[t]
      ensures store == Visit(user, eventType, s, w).store
      ensures trace == start + Visit(user, eventType, s, w).effects
    {
      var key := StoreKey(user, s.event);
      trace := trace + [Lookup(key)];
      if key in store && store[key] {
        s.Complete();
      } else if s.event == eventType {
        s.Complete();
        store := store[key := true];
        trace := trace + [Write(key, true)];
      }
    }

    /** The walk proper: the steps in index order, one visit each, in place. */
    method WalkSteps(user: string, eventType: string, steps: seq<Step>)
      modifies this`store, this`trace, steps
      ensures var w := Walk(user, eventType, steps, WalkState(old(HeapOf(steps)), old(store), []));
        (forall s :: s in steps ==> s.Value() == w.heap[s]) &&
        store == w.store && trace == old(trace) + w.effects
    {
      ghost var w0 := WalkState(HeapOf(steps), store, []);
      ghost var w := w0;
      ghost var start := trace;
      var i := 0;
      while i < |steps|
        invariant 0 <= i <= |steps|
        invariant Covers(steps[..i], w0.heap) && w == Walk(user, eventType, steps[..i], w0)
        invariant store == w.store && trace == start + w.effects
        invariant forall s :: s in steps ==> s.Value() == w.heap[s]
      {
        WalkPrefix(user, eventType, steps, i, w0);
        VisitStep(user, eventType, steps[i], steps, w, start);
        w := Visit(user, eventType, steps[i], w);
        i := i + 1;
      }
      assert steps[..|steps|] == steps;
    }

    /** The send that ends the walk: recorded once, and on success the user's cache
        entry becomes the sent message with the returned timestamp and channel. */
    method SendMessage(user: string, message: Message, reply: Reply) returns (outcome: RunOutcome)
      modifies this`trace, this`users
      ensures trace == old(trace) + [Send(message)]
      ensures reply.Delivered? ==> outcome == Cached && users == old(users)[user := Saved(message, reply.ts, reply.channel)]
      ensures reply.Rejected? ==> outcome == SendFailed && users == old(users)
    {
      trace := trace + [Send(message)];
      if reply.Delivered? {
        users := users[user := Saved(message, reply.ts, reply.channel)];
        outcome := Cached;
      } else {
        outcome := SendFailed;
      }
    }

    /** Started from the handler: walks the steps of `message`, then sends it and, on
        success, caches what was sent under the user, with the returned timestamp and
        channel. The steps end as the walk specifies, the datastore holds the walk's
        flags, the calls are the walk's lookups and writes and then exactly one send,
        and the cache changes only on a successful send and only for this user. A
        message without a step list changes nothing. */
    method ModifySteps(user: string, eventType: string, message: Message, reply: Reply) returns (outcome: RunOutcome)
      modifies this, StepsOf(message)
      ensures !HasSteps(message) ==> outcome == NoStepList && store == old(store) && users == old(users) && trace == old(trace)
      ensures HasSteps(message) ==>
        var steps := StepsOf(message);
        var w := Walk(user, eventType, steps, WalkState(old(HeapOf(steps)), old(store), []));
        (forall s :: s in steps ==> s.Value() == w.heap[s]) &&
        store == w.store && trace == old(trace) + w.effects + [Send(message)]
      ensures HasSteps(message) ==>
        if reply.Delivered? then
          outcome == Cached && users == old(users)[user := Saved(message, reply.ts, reply.channel)]
        else
          outcome == SendFailed && users == old(users)
    {
      if !HasSteps(message) {
        return NoStepList;
      }
      var steps := StepsOf(message);
      ghost var w := Walk(user, eventType, steps, WalkState(HeapOf(steps), store, []));
      WalkSteps(user, eventType, steps);
      assert forall s :: s in steps ==> s.Value() == w.heap[s];
      outcome := SendMessage(user, message, reply);
    }

    /** The handler for a tracked event: builds the user's current message and runs
        the step walk on it with the event's type. Other events are not routed. */
    method HandleEvent(eventType: string, user: string, reply: Reply) returns (outcome: RunOutcome)
      modifies this, StepsOf(StatusMessage(user, welcome, users))
      ensures eventType !in TrackedEvents ==>
        outcome == NotRouted && store == old(store) && users == old(users) && trace == old(trace)
      ensures eventType in TrackedEvents ==>
        var message := old(StatusMessage(user, welcome, users));
        if !HasSteps(message) then
          outcome == NoStepList && store == old(store) && users == old(users) && trace == old(trace)
        else
          var steps := StepsOf(message);
          var w := Walk(user, eventType, steps, WalkState(old(HeapOf(steps)), old(store), []));
          (forall s :: s in steps ==> s.Value() == w.heap[s]) &&
          store == w.store && trace == old(trace) + w.effects + [Send(message)] &&
          if reply.Delivered? then
            outcome == Cached && users == old(users)[user := Saved(message, reply.ts, reply.channel)]
          else
            outcome == SendFailed && users == old(users)
    {
      if eventType !in TrackedEvents {
        return NotRouted;
      }
      var message := StatusMessage(user, welcome, users);
      outcome := ModifySteps(user, eventType, message, reply);
    }
  }
}

