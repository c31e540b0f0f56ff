/** Onboarding messages and the shallow merge that builds them. A message is a
    record of named fields; the merge is the language's `Object.assign`, which
    copies each field of each layer over the fields before it and never looks
    inside a field's value. */
module Messages {
  import opened Steps

  /** The value of one field of a message. A step list holds references to step
      objects, so copying the field copies the references and not the steps. */
  datatype FieldValue = Text(text: string) | StepList(steps: seq<Step>)

  type Message = map<string, FieldValue>

  /** The index of the last layer that has field `k`, or -1 when no layer has it. */
  function LastWith(layers: seq<Message>, k: string): (j: int)
    ensures -1 <= j < |layers|
    ensures j >= 0 ==> k in layers[j]
    ensures forall i :: j < i < |layers| ==> k !in layers[i]
  {
    if layers == [] then -1
    else if k in layers[|layers| - 1] then |layers| - 1
    else LastWith(layers[..|layers| - 1], k)
  }

  /** `Object.assign` of the layers, in order, onto an empty record. */
  function Assign(layers: seq<Message>): Message
  {
    if layers == [] then map[]
    else Assign(layers[..|layers| - 1]) + layers[|layers| - 1]
  }

  /** Each field of a merge comes from the last layer that has it, taken whole. */
  lemma {:induction false} AssignLastWins(layers: seq<Message>, k: string)
    ensures k in Assign(layers) <==> LastWith(layers, k) >= 0
    ensures k in Assign(layers) ==> Assign(layers)[k] == layers[LastWith(layers, k)][k]
  {
    if layers != [] {
      AssignLastWins(layers[..|layers| - 1], k);
    }
  }

  /** Merging one more layer overlays its fields on the merge of the others. */
  lemma AssignSnoc(layers: seq<Message>, m: Message)
    ensures Assign(layers + [m]) == Assign(layers) + m
  {
    assert (layers + [m])[..|layers|] == layers;
  }

  /** The cached message of `user` as a layer of the merge; a missing entry adds nothing. */
  function CachedLayer(user: string, users: map<string, Message>): seq<Message>
  {
    if user in users then [users[user]] else []
  }

  /** The user's current onboarding message: a record whose channel is the user,
      then the welcome template, then the message last sent to the user. */
  function StatusMessage(user: string, welcome: Message, users: map<string, Message>): (r: Message)
    ensures forall k :: k in r <==> k == "channel" || k in welcome || (user in users && k in users[user])
    ensures forall k :: k in r ==>
      r[k] == (if user in users && k in users[user] then users[user][k]
               else if k in welcome then welcome[k]
               else Text(user))
  {
    StatusLayers(user, welcome, users);
    Assign([map["channel" := Text(user)], welcome] + CachedLayer(user, users))
  }

  /** The three layers of the status message merge to their plain overlay. */
  lemma StatusLayers(user: string, welcome: Message, users: map<string, Message>)
    ensures Assign([map["channel" := Text(user)], welcome] + CachedLayer(user, users))
         == map["channel" := Text(user)] + welcome + (if user in users then users[user] else map[])
  {
    var base := map["channel" := Text(user)];
    AssignSnoc([], base);
    assert [] + [base] == [base];
    AssignSnoc([base], welcome);
    assert [base] + [welcome] == [base, welcome];
    if user in users {
      AssignSnoc([base, welcome], users[user]);
    }
  }

  /** What the bot keeps of a message it sent: a copy with the timestamp and
      channel the messaging service returned. */
  function Saved(message: Message, ts: string, channel: string): (r: Message)
    ensures r.Keys == message.Keys + {"ts", "channel"}
    ensures r["ts"] == Text(ts) && r["channel"] == Text(channel)
    ensures forall k :: k in message && k != "ts" && k != "channel" ==> r[k] == message[k]
  {
    SavedLayers(message, ts, channel);
    Assign([map[], message, map["ts" := Text(ts), "channel" := Text(channel)]])
  }

  /** The three layers of the cached copy merge to their plain overlay. */
  lemma SavedLayers(message: Message, ts: string, channel: string)
    ensures Assign([map[], message, map["ts" := Text(ts), "channel" := Text(channel)]])
         == message + map["ts" := Text(ts), "channel" := Text(channel)]
  {
    var empty: Message := map[];
    var reply := map["ts" := Text(ts), "channel" := Text(channel)];
    AssignSnoc([], empty);
    assert [] + [empty] == [empty];
    AssignSnoc([empty], message);
    assert [empty] + [message] == [empty, message];
    AssignSnoc([empty, message], reply);
    assert [empty, message] + [reply] == [empty, message, reply];
    assert empty + message == message;
  }

  /** The message carries its checklist as a list of steps. */
  predicate HasSteps(m: Message)
  {
    "attachments" in m && m["attachments"].StepList?
  }

  /** The message's steps, in order; none when it has no step list. */
  function StepsOf(m: Message): seq<Step>
  {
    if HasSteps(m) then m["attachments"].steps else []
  }

  /** The merge copies the step list by reference: a user's current message walks
      the very step objects of the cached message, or of the template when nothing is
      cached, so users without a cached message share the template's steps. */
  lemma StatusSteps(user: string, welcome: Message, users: map<string, Message>)
    ensures StepsOf(StatusMessage(user, welcome, users)) ==
      if user in users && "attachments" in users[user] then StepsOf(users[user])
      else StepsOf(welcome)
  {
  }
}
