# Onboarding bot: step reconciler

A model of the onboarding checklist logic of a small team-chat bot. Each user has an
onboarding message whose attachments are checklist steps (title, colour, `completed`
flag, and the tag of the event that completes the step). When the user stars, pins or
reacts, the bot:

1. builds the user's current message as a shallow merge: a record whose channel is the
   user, overlaid with the welcome template, overlaid with the message last sent to the
   user;
2. walks the steps in index order and looks up the key `user + step.event` in the
   datastore for each one. A truthy flag marks the step complete: a check-mark suffix on
   the title, the colour `#2ab27b`, and `completed = true`. If there is no flag and the
   step's event is the one that happened, the step is marked the same way and `true` is
   written under the key. Any other step is left alone;
3. sends the message, and on success caches it for the user together with the timestamp
   and channel the service returned.

Files and modules:

- `steps.dfy`, module `Steps`: the `Step` class. Steps are heap objects, because the bot
  changes them in place.
- `messages.dfy`, module `Messages`: messages as maps from field name to value. `Assign`
  models `Object.assign`. The module also has the status message and the cached copy.
- `reconcile.dfy`, module `Reconcile`: the walk as a specification on values. A map from
  step object to contents stands for the steps. The datastore is a `map<string, bool>`.
  The effects are the walk's datastore calls, in order. The module also holds the
  lemmas about the walk.
- `onboarding.dfy`, module `Onboarding`: the `Bot` class. It holds the datastore, the
  per-user cache and a ghost trace of external calls. `WalkSteps` does the walk with a
  `while` loop, one `VisitStep` per step, and is proved against `Walk`. `SendMessage` is
  the send and the caching of its answer. `ModifySteps` is the walk followed by the send,
  and `HandleEvent` is the event handler.

The send is modelled as a `Reply` parameter: either `Delivered(ts, channel)` or
`Rejected(reason)`. The datastore is modelled as the `store` field, and every lookup and
write is recorded in `trace`.

Two behaviours of the code that a reader may not expect:

- Merge order. `{channel: user}` is the lowest layer and the template is laid over it,
  so a `channel` field in the template wins (index.js:39). `StatusMessage` states this.
- Repeated runs. Handling the same event twice does not leave the message as one run
  does: the check mark is appended on every visit to a step whose flag is set
  (index.js:66), so the title grows with each run. `RerunAppendsAgain` proves this, and
  `PinAddedTwice` shows it on a concrete input. The datastore, however, is left alone by
  a second run (`RerunStoreUnchanged`).

Two further consequences of the code that the model makes explicit:

- The merge is shallow, so the steps walked are the objects held by the cached message,
  or by the template when nothing is cached (`StatusSteps`). `HandleEvent`'s `modifies`
  clause names exactly those objects. Users with no cached message therefore share, and
  change, the template's step objects.
- The key is the plain concatenation `user + event`. For one user it determines the
  event (`StoreKeyInjective`). Across users it does not (`KeysCollide`).

## Model

| member | source | states |
|---|---|---|
| Messages.AssignLastWins | index.js:39 | a field is in a merge exactly when some layer has it, and its value is the whole value from the last layer that has it (the step list is taken whole, never merged element by element) |
| Messages.StatusMessage | index.js:38-40 | built with `Assign`, the model of `Object.assign`, over the layers `{channel: user}`, template, cached message: the status message has the fields of the channel record, the template and the cached message; each value comes from the cached message if it has the field, else from the template, else it is the channel set to the user |
| Messages.StatusSteps | index.js:39 | the steps of the status message are the same step objects as the cached message's, or the template's when no cached message has attachments |
| Messages.Saved | index.js:53 | built with `Assign` over `{}`, the message and the reply fields: the cached copy has the message's fields plus `ts` and `channel`, which hold the service's answer; every other field keeps the message's value |
| Steps.Step.Complete | index.js:66-68 | marks a step in place, its new contents being `Mark` of the old (the same marking as index.js:71-73): check-mark suffix appended, done colour, `completed` set, event tag unchanged |
| Reconcile.Visit | index.js:57-81 | one visit of a step on values (step contents by object, datastore, calls): it keeps the same set of step objects; a set flag marks the step, else a step with the event is marked and its flag written `true`, else nothing changes but the lookup; `VisitCalls` and `VisitMarks` state its calls and its effect on the steps |
| Reconcile.Walk | index.js:42-81 | the walk on values: one `Visit` per step in index order, each seeing what the earlier visits did; it keeps the same set of step objects; the lemmas below state what it does |
| Reconcile.StoreKeyInjective | index.js:59 | for one user, two events give the same datastore key exactly when they are the same event |
| Reconcile.KeysCollide | index.js:59 | two different user/event pairs can give the same key |
| Reconcile.VisitCalls | index.js:57-81 | one visit makes one lookup of the step's key, and writes `true` under that key exactly when the flag is not set and the step's event is the one that happened |
| Reconcile.WalkOnlyMarks | index.js:44-78 | no event tag changes and `completed` is never cleared; a changed step ends completed in the done colour; steps not in the list do not change |
| Reconcile.WalkLookups | index.js:43-61 | the walk makes exactly one lookup per step, in index order, of that step's own key; the only other calls are the writes, so the number of calls is the number of steps plus the writes (zero lookups for an empty list) |
| Reconcile.WalkStore | index.js:59-76 | the walk writes at most once: `true` under `user + type`, exactly when some step has the event and that flag was not set; otherwise the datastore is unchanged |
| Reconcile.WalkStoreMonotone | index.js:65-76 | a set flag stays set, and the only key that may change is `user + type`, which becomes true |
| Reconcile.WalkOutcome | index.js:65-78 | every step whose flag was set, or whose event is the one that happened, ends completed in the done colour; every other step is exactly as it was (steps that occur twice included) |
| Reconcile.WalkDistinct | index.js:59-78 | when no step occurs twice, each step ends exactly marked once or unchanged, decided by the flags before the walk and by whether its event is the one that happened; what earlier steps write does not change later steps |
| Reconcile.RerunStoreUnchanged | index.js:59-76 | running the walk again from where it ended writes nothing and leaves the datastore as the first run left it |
| Reconcile.RerunAppendsAgain | index.js:65-68 | a step marked in one run gets a second check mark in the next run, so two runs do not leave the steps as one run does |
| Reconcile.PinAddedTwice | index.js:42-83 | on a pin step then a star step for a user with no flags: lookups `U1pin_added` then `U1star_added`, only the pin step marked, and only the pin flag written; a second pin marks the pin step again from its flag and writes nothing |
| Onboarding.Bot.VisitStep | index.js:57-81 | the in-place visit of one step leaves the steps, the datastore and the trace as `Visit` specifies |
| Onboarding.Bot.WalkSteps | index.js:42-81 | the loop over the steps leaves each step's contents, the datastore and the trace as `Walk` specifies for the contents and flags before the run |
| Onboarding.Bot.SendMessage | index.js:49-56 | exactly one send of the message is recorded; on success the user's cache entry becomes the sent message with the returned `ts` and `channel` and the outcome is `Cached`, other users' entries untouched; on failure the cache is unchanged and the outcome is `SendFailed` |
| Onboarding.Bot.ModifySteps | index.js:42-83 | after the walk, exactly one send of the message; on success the user's cache entry becomes the sent message with the returned `ts` and `channel`, other users' entries untouched; on failure the cache is unchanged; a message without a step list changes nothing |
| Onboarding.Bot.HandleEvent | index.js:117-133 | a tracked event (`star_added`, `pin_added`, `reaction_added`) runs `ModifySteps` on the user's status message with the event's type; any other event changes nothing |

## Left out

- The messaging client library (creating the client, registering handlers, sending,
  listening on the port; index.js:30-34, 86, 136) is a foreign library. A send is modelled
  only by its answer, the `Reply` parameter. Dispatch by event name is modelled as a
  membership test on the three tracked names.
- The datastore connection guard and the bot-token startup chain (index.js:18-35,
  140-150) are connection plumbing. The datastore is the `store` map. Its credential entry
  is not modelled, and the map holds only the flags.
- The two slash-command handlers (index.js:86-113) only send a message and change no
  state, so they are not modelled. The `/NAMEOFSLASHCOMMAND` handler sends the user's
  status message, which is `StatusMessage` (index.js:90). The `/satellite` handler sends
  the fixed welcome template (index.js:105).
- `isJSON` and the parse of text attachments (index.js:127-129, 152-160) are a guess made
  with a foreign parser. Attachments are modelled as already structured. A message whose
  attachments are missing or are not a step list is modelled as a run that changes
  nothing: indexing a missing list throws before any call. The source would try to parse
  text attachments and, failing that, walk their characters. Neither is modelled.
- Asynchrony is not modelled. Each run is atomic. The fire-and-forget write (index.js:74)
  is taken to land before the next lookup. A lookup whose promise rejects stops the chain
  without a send; that is not modelled either. Interleaved runs for the same user are not
  modelled.
- JavaScript value details are not modelled: truthiness of non-boolean stored values,
  steps with missing fields (concatenating onto an undefined title), and user names that
  collide with object prototype properties in the `users` record.
- The `item` argument of `modifySteps` is passed along but never used, so the model
  drops it.
- Console logging is not modelled.
- The contents of the two template files are not visible, so the welcome template is an
  arbitrary message given to the constructor.
