/**
 * The WhatsApp webhook endpoint (WebhookController): the verification
 * handshake, and the walk over a delivered payload that marks every message
 * read and hands it to the message handler, in payload order.
 */
module Webhook {
  import opened Domain
  import opened Seqs
  import opened Store
  import opened Booking
  import opened Messaging
  import opened MessageHandling
  import opened HandlerProperties

  /** The payload object of a WhatsApp Business Account delivery. */
  const BusinessAccount: string := "whatsapp_business_account"
  /** The field of a change that carries messages. */
  const MessagesField: string := "messages"
  const SubscribeMode: string := "subscribe"
  const TextType: string := "text"
  const InteractiveType: string := "interactive"

  /** WebhookButtonReply and WebhookListReply: the id and title of the chosen option. */
  datatype ChosenReply = ChosenReply(id: string, title: string)

  /** WebhookInteractive */
  datatype Interactive = Interactive(buttonReply: Option<ChosenReply>, listReply: Option<ChosenReply>)

  /** WebhookMessage; text is the body of the Text object when there is one. */
  datatype WebhookMessage = WebhookMessage(
    from: string,
    id: string,
    messageType: string,
    text: Option<string>,
    interactive: Option<Interactive>)

  /** WebhookContact; profileName is None when the contact has no profile. */
  datatype Contact = Contact(waId: string, profileName: Option<string>)

  /** WebhookValue; the status updates are only logged and are not modelled. */
  datatype WebhookValue = WebhookValue(contacts: Option<seq<Contact>>, messages: Option<seq<WebhookMessage>>)

  datatype Change = Change(field: string, value: WebhookValue)

  datatype Entry = Entry(id: string, changes: seq<Change>)

  /** WhatsAppWebhookPayload */
  datatype Payload = Payload(objectName: string, entries: seq<Entry>)

  /** What VerifyWebhook answers. */
  datatype VerifyResult = Challenge(challenge: string) | Forbidden

  /** VerifyWebhook: the challenge is echoed only for a subscribe request carrying the configured token. */
  function Verify(mode: string, token: string, challenge: string, verifyToken: Option<string>): (r: VerifyResult)
    ensures r.Challenge? <==> mode == SubscribeMode && verifyToken == Some(token)
    ensures r.Challenge? ==> r.challenge == challenge
  {
    if mode == SubscribeMode && verifyToken == Some(token) then Challenge(challenge) else Forbidden
  }

  /** A message with the contacts delivered beside it. */
  datatype Delivery = Delivery(contacts: Option<seq<Contact>>, message: WebhookMessage)

  /** The messages of one value, each with the value's contacts; none when Messages is null. */
  function ValueDeliveries(v: WebhookValue): (ds: seq<Delivery>)
    ensures v.messages.None? ==> ds == []
    ensures v.messages.Some? ==> |ds| == |v.messages.value|
    ensures v.messages.Some? ==> forall i :: 0 <= i < |ds| ==> ds[i] == Delivery(v.contacts, v.messages.value[i])
  {
    match v.messages
    case None => []
    case Some(ms) => seq(|ms|, i requires 0 <= i < |ms| => Delivery(v.contacts, ms[i]))
  }

  predicate IsMessagesChange(c: Change)
  {
    c.field == MessagesField
  }

  /** A change of another field than "messages" is skipped. */
  function ChangeDeliveries(c: Change): (ds: seq<Delivery>)
    ensures !IsMessagesChange(c) ==> ds == []
  {
    if IsMessagesChange(c) then ValueDeliveries(c.value) else []
  }

  /** The messages of one entry, change by change. */
  function EntryDeliveries(e: Entry): seq<Delivery>
  {
    SelectMany(e.changes, ChangeDeliveries)
  }

  /** The messages the walk visits, in payload order: none unless the payload is a WhatsApp Business Account delivery. */
  function Deliveries(p: Payload): (ds: seq<Delivery>)
    ensures p.objectName != BusinessAccount ==> ds == []
  {
    if p.objectName != BusinessAccount then [] else SelectMany(p.entries, EntryDeliveries)
  }

  /** Dropping the changes of other fields loses no message. */
  lemma OtherFieldsAddNothing(e: Entry)
    ensures EntryDeliveries(e) == SelectMany(Filter(e.changes, IsMessagesChange), ChangeDeliveries)
  {
    SelectManySkipsEmpty(e.changes, IsMessagesChange, ChangeDeliveries);
  }

  /** A call the walk makes, in order. */
  datatype WebhookEvent =
    | ReadMark(messageId: string)                                           // MarkMessageAsReadAsync
    | TextReceived(from: string, body: string, senderName: Option<string>)  // HandleIncomingMessageAsync
    | ReplyReceived(from: string, replyId: string, replyTitle: string)      // HandleInteractiveReplyAsync

  predicate FromWaId(from: string, c: Contact)
  {
    c.waId == from
  }

  /** The profile name of the first contact whose WaId is the sender; None without contacts or without such a contact. */
  function SenderName(contacts: Option<seq<Contact>>, from: string): (name: Option<string>)
    ensures contacts.None? ==> name.None?
    ensures contacts.Some? && (forall i :: 0 <= i < |contacts.value| ==> contacts.value[i].waId != from) ==> name.None?
    ensures contacts.Some? ==>
              forall i :: 0 <= i < |contacts.value| && contacts.value[i].waId == from
                          && (forall j :: 0 <= j < i ==> contacts.value[j].waId != from) ==>
                name == contacts.value[i].profileName
  {
    match contacts
    case None => None
    case Some(cs) =>
      var k := FirstIndex(cs, c => FromWaId(from, c));
      if k < |cs| then
        assert forall i :: 0 <= i < |cs| && cs[i].waId == from && (forall j :: 0 <= j < i ==> cs[j].waId != from) ==> i == k;
        cs[k].profileName
      else None
  }

  /**
   * The handler call a message leads to: a text message with a body goes to
   * the text handler; an interactive one goes to the reply handler with its
   * button reply, or else its list reply; anything else is ignored.
   */
  function Dispatch(d: Delivery): (r: seq<WebhookEvent>)
    ensures |r| <= 1
    ensures forall e :: e in r ==> !e.ReadMark? && e.from == d.message.from
    ensures d.message.messageType == TextType && d.message.text.Some? ==>
              r == [TextReceived(d.message.from, d.message.text.value, SenderName(d.contacts, d.message.from))]
    ensures d.message.messageType != TextType && d.message.messageType != InteractiveType ==> r == []
    ensures d.message.messageType == InteractiveType && d.message.interactive.Some? ==>
              var i := d.message.interactive.value;
              && (i.buttonReply.Some? ==> r == [ReplyReceived(d.message.from, i.buttonReply.value.id, i.buttonReply.value.title)])
              && (i.buttonReply.None? && i.listReply.Some? ==>
                    r == [ReplyReceived(d.message.from, i.listReply.value.id, i.listReply.value.title)])
              && (i.buttonReply.None? && i.listReply.None? ==> r == [])
  {
    var m := d.message;
    if m.messageType == TextType && m.text.Some? then
      [TextReceived(m.from, m.text.value, SenderName(d.contacts, m.from))]
    else if m.messageType == InteractiveType && m.interactive.Some? then
      match (m.interactive.value.buttonReply, m.interactive.value.listReply)
      case (Some(b), _) => [ReplyReceived(m.from, b.id, b.title)]
      case (None, Some(l)) => [ReplyReceived(m.from, l.id, l.title)]
      case (None, None) => []
    else []
  }

  /** The calls one message leads to: first the read mark, then its handler call if any. */
  function DeliveryEvents(d: Delivery): (r: seq<WebhookEvent>)
    ensures 1 <= |r| <= 2 && r[0] == ReadMark(d.message.id)
  {
    [ReadMark(d.message.id)] + Dispatch(d)
  }

  /** The calls for the messages of one change. */
  function ChangeEvents(c: Change): seq<WebhookEvent>
  {
    SelectMany(ChangeDeliveries(c), DeliveryEvents)
  }

  /** The calls for the messages of one entry. */
  function EntryEvents(e: Entry): seq<WebhookEvent>
  {
    SelectMany(e.changes, ChangeEvents)
  }

  /** The calls ReceiveWebhook makes for a payload, entry by entry. */
  function PayloadEvents(p: Payload): (r: seq<WebhookEvent>)
    ensures p.objectName != BusinessAccount ==> r == []
  {
    if p.objectName != BusinessAccount then [] else SelectMany(p.entries, EntryEvents)
  }

  /** The walk's calls are those of the delivered messages, one message after another. */
  lemma PayloadEventsByMessage(p: Payload)
    ensures PayloadEvents(p) == SelectMany(Deliveries(p), DeliveryEvents)
  {
    if p.objectName == BusinessAccount {
      forall e ensures EntryEvents(e) == SelectMany(EntryDeliveries(e), DeliveryEvents) {
        SelectManyNested(e.changes, ChangeDeliveries, DeliveryEvents, ChangeEvents);
      }
      SelectManyNested(p.entries, EntryDeliveries, DeliveryEvents, EntryEvents);
    }
  }

  /** The id of a read mark. */
  function ReadIdOf(e: WebhookEvent): seq<string>
  {
    if e.ReadMark? then [e.messageId] else []
  }

  function MessageIds(ds: seq<Delivery>): (ids: seq<string>)
    ensures |ids| == |ds| && forall i :: 0 <= i < |ds| ==> ids[i] == ds[i].message.id
  {
    seq(|ds|, i requires 0 <= i < |ds| => ds[i].message.id)
  }

  lemma MessageIdsSnoc(ds: seq<Delivery>)
    requires ds != []
    ensures MessageIds(ds) == MessageIds(ds[..|ds| - 1]) + [ds[|ds| - 1].message.id]
  {
  }

  /** One message's calls hold exactly one read mark, for that message. */
  lemma ReadIdOfDelivery(d: Delivery)
    ensures SelectMany(DeliveryEvents(d), ReadIdOf) == [d.message.id]
  {
    var mark: seq<WebhookEvent> := [ReadMark(d.message.id)];
    var rest := Dispatch(d);
    SelectManyAppend(mark, rest, ReadIdOf);
    assert mark[..0] == [];
    if rest != [] {
      assert rest[0] in rest && rest[..0] == [];
    }
  }

  /** Every delivered message is marked read exactly once, in payload order. */
  lemma {:induction false} EveryMessageMarkedRead(ds: seq<Delivery>)
    ensures SelectMany(SelectMany(ds, DeliveryEvents), ReadIdOf) == MessageIds(ds)
  {
    if ds != [] {
      var n := |ds| - 1;
      var d := ds[n];
      var before := SelectMany(ds[..n], DeliveryEvents);
      assert SelectMany(ds, DeliveryEvents) == before + DeliveryEvents(d);
      EveryMessageMarkedRead(ds[..n]);
      SelectManyAppend(before, DeliveryEvents(d), ReadIdOf);
      ReadIdOfDelivery(d);
      MessageIdsSnoc(ds);
    }
  }

  /** The read marks of a payload's walk name its messages, in payload order. */
  lemma PayloadMessagesMarkedRead(p: Payload)
    ensures SelectMany(PayloadEvents(p), ReadIdOf) == MessageIds(Deliveries(p))
  {
    PayloadEventsByMessage(p);
    EveryMessageMarkedRead(Deliveries(p));
  }

  /** Each handler call directly follows a read mark. */
  predicate MarkedBeforeHandled(evs: seq<WebhookEvent>)
  {
    forall k :: 0 <= k < |evs| && !evs[k].ReadMark? ==> k > 0 && evs[k - 1].ReadMark?
  }

  /** Each message is marked read before it is handed to a handler. */
  lemma {:induction false} ReadBeforeDispatch(ds: seq<Delivery>)
    ensures MarkedBeforeHandled(SelectMany(ds, DeliveryEvents))
  {
    if ds != [] {
      var n := |ds| - 1;
      ReadBeforeDispatch(ds[..n]);
      var a, b := SelectMany(ds[..n], DeliveryEvents), DeliveryEvents(ds[n]);
      var evs: seq<WebhookEvent> := a + b;
      assert SelectMany(ds, DeliveryEvents) == evs;
      forall k | 0 <= k < |evs| && !evs[k].ReadMark? ensures k > 0 && evs[k - 1].ReadMark? {
        if k >= |a| {
          assert k - |a| == 1 && b[1] == evs[k] && b[0] == evs[k - 1];
        }
      }
    }
  }

  /** In a payload's walk every handler call directly follows a read mark. */
  lemma PayloadMarkedBeforeHandled(p: Payload)
    ensures MarkedBeforeHandled(PayloadEvents(p))
  {
    PayloadEventsByMessage(p);
    ReadBeforeDispatch(Deliveries(p));
  }

  /** Runs the steps in order up to the first that fails; the flag says whether one did. */
  function RunSteps<S, E>(s: S, evs: seq<E>, step: (S, E) -> (S, bool)): (r: (S, bool))
    ensures evs == [] ==> r == (s, false)
    decreases |evs|
  {
    if evs == [] then (s, false)
    else
      var before := RunSteps(s, evs[..|evs| - 1], step);
      if before.1 then before else step(before.0, evs[|evs| - 1])
  }

  /** Running two lists of steps is running the second after the first, unless the first failed. */
  lemma {:induction false} RunStepsAppend<S, E>(s: S, a: seq<E>, b: seq<E>, step: (S, E) -> (S, bool))
    ensures var first := RunSteps(s, a, step);
            RunSteps(s, a + b, step) == if first.1 then first else RunSteps(first.0, b, step)
    decreases |b|
  {
    if b == [] {
      assert a + b == a;
    } else {
      var n := |b| - 1;
      assert (a + b)[..|a + b| - 1] == a + b[..n];
      RunStepsAppend(s, a, b[..n], step);
    }
  }

  /** A single step runs on its own. */
  lemma RunStepsSingle<S, E>(s: S, e: E, step: (S, E) -> (S, bool))
    ensures RunSteps(s, [e], step) == step(s, e)
  {
    assert [e][..0] == [];
  }

  /** The steps after a first one run only when the first succeeds. */
  lemma RunStepsFirst<S, E>(s: S, e: E, rest: seq<E>, step: (S, E) -> (S, bool))
    ensures var first := step(s, e);
            RunSteps(s, [e] + rest, step) == if first.1 then first else RunSteps(first.0, rest, step)
  {
    RunStepsSingle(s, e, step);
    RunStepsAppend(s, [e], rest, step);
  }

  /** The steps of one more element run after those so far, unless those failed. */
  lemma RunStepsNext<S, E, T>(s: S, xs: seq<T>, f: T -> seq<E>, i: int, step: (S, E) -> (S, bool))
    requires 0 <= i < |xs|
    ensures var before := RunSteps(s, SelectMany(xs[..i], f), step);
            RunSteps(s, SelectMany(xs[..i + 1], f), step) == if before.1 then before else RunSteps(before.0, f(xs[i]), step)
  {
    assert xs[..i + 1][..i] == xs[..i];
    RunStepsAppend(s, SelectMany(xs[..i], f), f(xs[i]), step);
  }

  /** Once a step fails, the remaining elements run no step. */
  lemma RunStepsStop<S, E, T>(s: S, xs: seq<T>, f: T -> seq<E>, i: int, step: (S, E) -> (S, bool))
    requires 0 <= i <= |xs|
    requires RunSteps(s, SelectMany(xs[..i], f), step).1
    ensures RunSteps(s, SelectMany(xs, f), step) == RunSteps(s, SelectMany(xs[..i], f), step)
  {
    assert xs == xs[..i] + xs[i..];
    SelectManyAppend(xs[..i], xs[i..], f);
    RunStepsAppend(s, SelectMany(xs[..i], f), SelectMany(xs[i..], f), step);
  }

  /**
   * One call: a read mark goes to the WhatsApp sender; the second component
   * is true when the handler throws or never returns. The first branch, a
   * clock whose week of offered dates runs past the last representable date,
   * makes the step total.
   */
  function Perform(w: World, e: WebhookEvent, clock: Clock): (r: (World, bool))
    ensures SameSetup(w.db, r.0.db)
  {
    if !ClockOk(clock) then (w, true)
    else
      match e
      case ReadMark(id) => (Sent(w, MarkRead(id)), false)
      case TextReceived(from, body, name) => (IncomingMessage(w, from, body, name, clock), false)
      case ReplyReceived(from, id, _) => InteractiveReply(w, from, id, clock)
  }

  /** The handler calls at one clock reading. */
  function PerformAt(clock: Clock): (World, WebhookEvent) -> (World, bool)
  {
    (w: World, e: WebhookEvent) => Perform(w, e, clock)
  }

  /** The calls in order, up to the first that throws: the exception ends the walk. */
  function Apply(w: World, evs: seq<WebhookEvent>, clock: Clock): (r: (World, bool))
  {
    RunSteps(w, evs, PerformAt(clock))
  }

  /** A delivery keeps the store valid and every conversation state under its own number. */
  lemma {:induction false} DeliveryKeepsInvariants(w: World, evs: seq<WebhookEvent>, clock: Clock)
    requires WorldOk(w) && ClockOk(clock)
    ensures WorldOk(Apply(w, evs, clock).0)
    decreases |evs|
  {
    if evs != [] {
      var n := |evs| - 1;
      DeliveryKeepsInvariants(w, evs[..n], clock);
      var before := Apply(w, evs[..n], clock);
      if !before.1 {
        assert Apply(w, evs, clock) == Perform(before.0, evs[n], clock);
        match evs[n]
        case ReadMark(id) =>
        case TextReceived(from, body, name) =>
          IncomingKeepsInvariants(before.0, from, body, name, clock);
        case ReplyReceived(from, id, _) =>
          ReplyKeepsInvariants(before.0, from, id, clock);
      }
    }
  }

  /** What ReceiveWebhook answers: always 200 OK, even when a handler threw. */
  datatype Response = Ok

  class WebhookController {
    const handler: MessageHandler
    /** configuration["WhatsApp:VerifyToken"], None when it is not configured. */
    const verifyToken: Option<string>

    constructor (handler: MessageHandler, verifyToken: Option<string>)
      ensures this.handler == handler && this.verifyToken == verifyToken
    {
      this.handler := handler;
      this.verifyToken := verifyToken;
    }

    /** VerifyWebhook (GET) */
    method VerifyWebhook(mode: string, token: string, challenge: string) returns (result: VerifyResult)
      ensures result == Verify(mode, token, challenge, verifyToken)
    {
      if mode == SubscribeMode && verifyToken == Some(token) {
        return Challenge(challenge);
      }
      result := Forbidden;
    }

    function Snapshot(): World
      reads handler, handler.db, handler.conversations, handler.outbox
    {
      handler.Snapshot()
    }

    /** One message: the read mark, the sender's name, then the handler call; true when the handler throws. */
    method ProcessMessage(d: Delivery, clock: Clock) returns (threw: bool)
      requires handler.Wired() && ClockOk(clock)
      modifies handler.db, handler.conversations, handler.outbox
      ensures (Snapshot(), threw) == Apply(old(Snapshot()), DeliveryEvents(d), clock)
    {
      ghost var w0 := Snapshot();
      handler.outbox.Send(MarkRead(d.message.id));
      assert Perform(w0, ReadMark(d.message.id), clock) == (Snapshot(), false);
      RunStepsFirst(w0, ReadMark(d.message.id), Dispatch(d), PerformAt(clock));
      threw := DispatchMessage(d, clock);
    }

    /** The handler call after the read mark: text, button reply, list reply, or none. */
    method DispatchMessage(d: Delivery, clock: Clock) returns (threw: bool)
      requires handler.Wired() && ClockOk(clock)
      modifies handler.db, handler.conversations, handler.outbox
      ensures (Snapshot(), threw) == RunSteps(old(Snapshot()), Dispatch(d), PerformAt(clock))
    {
      ghost var w0 := Snapshot();
      var m := d.message;
      var senderName := SenderName(d.contacts, m.from);
      threw := false;
      if m.messageType == TextType && m.text.Some? {
        var e := TextReceived(m.from, m.text.value, senderName);
        handler.HandleIncomingMessage(m.from, m.text.value, senderName, clock);
        assert (Snapshot(), threw) == Perform(w0, e, clock);
        RunStepsSingle(w0, e, PerformAt(clock));
      } else if m.messageType == InteractiveType && m.interactive.Some? {
        var interactive := m.interactive.value;
        if interactive.buttonReply.Some? {
          var reply := interactive.buttonReply.value;
          var e := ReplyReceived(m.from, reply.id, reply.title);
          threw := handler.HandleInteractiveReply(m.from, reply.id, reply.title, clock);
          assert (Snapshot(), threw) == Perform(w0, e, clock);
          RunStepsSingle(w0, e, PerformAt(clock));
        } else if interactive.listReply.Some? {
          var reply := interactive.listReply.value;
          var e := ReplyReceived(m.from, reply.id, reply.title);
          threw := handler.HandleInteractiveReply(m.from, reply.id, reply.title, clock);
          assert (Snapshot(), threw) == Perform(w0, e, clock);
          RunStepsSingle(w0, e, PerformAt(clock));
        }
      }
    }

    /** The messages of one change; true when a handler throws, which ends the walk. */
    method ProcessChange(c: Change, clock: Clock) returns (threw: bool)
      requires handler.Wired() && ClockOk(clock)
      modifies handler.db, handler.conversations, handler.outbox
      ensures (Snapshot(), threw) == Apply(old(Snapshot()), ChangeEvents(c), clock)
    {
      ghost var w0 := Snapshot();
      ghost var ds := ChangeDeliveries(c);
      threw := false;
      if c.field != MessagesField {
        return;
      }
      var value := c.value;
      if value.messages.None? {
        return;
      }
      var messages := value.messages.value;
      for i := 0 to |messages|
        invariant (Snapshot(), false) == Apply(w0, SelectMany(ds[..i], DeliveryEvents), clock)
      {
        RunStepsNext(w0, ds, DeliveryEvents, i, PerformAt(clock));
        threw := ProcessMessage(Delivery(value.contacts, messages[i]), clock);
        if threw {
          RunStepsStop(w0, ds, DeliveryEvents, i + 1, PerformAt(clock));
          return;
        }
      }
      assert ds[..|messages|] == ds;
    }

    /** The changes of one entry; true when a handler throws. */
    method ProcessEntry(e: Entry, clock: Clock) returns (threw: bool)
      requires handler.Wired() && ClockOk(clock)
      modifies handler.db, handler.conversations, handler.outbox
      ensures (Snapshot(), threw) == Apply(old(Snapshot()), EntryEvents(e), clock)
    {
      ghost var w0 := Snapshot();
      var changes := e.changes;
      threw := false;
      for i := 0 to |changes|
        invariant (Snapshot(), false) == Apply(w0, SelectMany(changes[..i], ChangeEvents), clock)
      {
        RunStepsNext(w0, changes, ChangeEvents, i, PerformAt(clock));
        threw := ProcessChange(changes[i], clock);
        if threw {
          RunStepsStop(w0, changes, ChangeEvents, i + 1, PerformAt(clock));
          return;
        }
      }
      assert changes[..|changes|] == changes;
    }

    /**
     * ReceiveWebhook (POST): every message of every "messages" change is
     * marked read and dispatched, in payload order, until a handler throws;
     * the answer is 200 OK either way. A call that never returns also ends the walk here.
     */
    method ReceiveWebhook(payload: Payload, clock: Clock) returns (response: Response)
      requires handler.Wired() && ClockOk(clock)
      modifies handler.db, handler.conversations, handler.outbox
      ensures response == Ok
      ensures Snapshot() == Apply(old(Snapshot()), PayloadEvents(payload), clock).0
    {
      response := Ok;
      if payload.objectName != BusinessAccount {
        return;
      }
      ghost var w0 := Snapshot();
      var entries := payload.entries;
      for i := 0 to |entries|
        invariant (Snapshot(), false) == Apply(w0, SelectMany(entries[..i], EntryEvents), clock)
      {
        RunStepsNext(w0, entries, EntryEvents, i, PerformAt(clock));
        var threw := ProcessEntry(entries[i], clock);
        if threw {
          RunStepsStop(w0, entries, EntryEvents, i + 1, PerformAt(clock));
          return;
        }
      }
      assert entries[..|entries|] == entries;
    }
  }
}
