/**
 The conversation controller of the chat page: the contact list with its
 previews and unread badges, the per-contact message threads, the selected
 contact and the simulated peer that types and answers after a send.

 Every React state update is a pure function from one `Home` state to the
 next. The two `setTimeout` callbacks a send schedules are one pending
 `ReplyTimer` per send: its first firing shows the typing indicator (the 1 s
 timer), its second delivers the canned reply (the 3 s timer). The timers of
 one send always fire in that order; timers of different sends may fire in
 any interleaving.
 */
module Conversation {
  import opened Optional
  import opened JsText

  type ContactId = int

  /** `sender: 'user' | 'contact'` */
  datatype Sender = FromUser | FromContact

  /** `status: 'sent' | 'received'` */
  datatype Status = Sent | Received

  /** A message of a thread. `id` and `time` come from the clock and are
      opaque here. */
  datatype Message = Message(id: int, text: string, sender: Sender, time: string, status: Status)

  /** The `{ lastMessage, time }` pair shown under a contact's name. */
  datatype Preview = Preview(text: string, time: string)

  datatype Contact = Contact(id: ContactId, name: string, avatar: string,
                             lastMessage: string, time: string, unread: nat)
  {
    /** The preview this contact currently shows in the sidebar. */
    function Shown(): Preview {
      Preview(lastMessage, time)
    }
  }

  /** What `Date.now()` and `toLocaleTimeString` return at the moment of an
      event, passed in instead of read from the environment. */
  datatype Clock = Clock(nowMs: int, timeLabel: string)

  /** How far the timer chain of one send has got. */
  datatype Stage = Scheduled | TypingShown

  /** The pending timers of one send; `target` is the contact that was
      selected when the message was sent (the callbacks' closure). */
  datatype ReplyTimer = ReplyTimer(target: ContactId, stage: Stage)

  /** The state of the page component: `contactsData`, `messages`,
      `selectedContact`, `selectedContactRef.current`, `sidebarOpen`,
      `isTyping`, and the timers not yet fired. */
  datatype Home = Home(contacts: seq<Contact>,
                       threads: map<ContactId, seq<Message>>,
                       selected: Option<Contact>,
                       selectedRef: Option<Contact>,
                       sidebarOpen: bool,
                       isTyping: bool,
                       pending: seq<ReplyTimer>)

  /** The canned answers of the simulated peer. */
  const BotResponses: seq<string> := [
    "That's interesting!",
    "I understand what you mean.",
    "Thanks for sharing that with me.",
    "Could you tell me more about that?",
    "That sounds great!",
    "I agree with you on that.",
    "Let me think about that for a moment.",
    "That's a good point!"
  ]

  /** `messages[id] || []`: a contact without an entry has an empty thread. */
  function ThreadOf(threads: map<ContactId, seq<Message>>, id: ContactId): seq<Message> {
    if id in threads then threads[id] else []
  }

  /** No two contacts share an id. */
  predicate UniqueIds(contacts: seq<Contact>) {
    forall i, j :: 0 <= i < |contacts| && 0 <= j < |contacts| && contacts[i].id == contacts[j].id ==> i == j
  }

  /** `getLastPreview`: the preview of a thread is that of its newest message,
      and empty text and time for a thread without messages. */
  function LastPreview(thread: seq<Message>): (p: Preview)
    ensures thread == [] ==> p == Preview("", "")
    ensures thread != [] ==> p.text == thread[|thread| - 1].text && p.time == thread[|thread| - 1].time
  {
    if |thread| == 0 then Preview("", "")
    else
      var last := thread[|thread| - 1];
      Preview(last.text, last.time)
  }

  /** Every contact shows the preview of its own thread. */
  predicate PreviewsInSync(h: Home) {
    forall i :: 0 <= i < |h.contacts| ==> h.contacts[i].Shown() == LastPreview(ThreadOf(h.threads, h.contacts[i].id))
  }

  /** `updateContactPreview(id, p, { incrementUnread, resetUnread })`: the
      contacts whose id is `id` show `p`, and their unread count is one more
      than before when `incrementUnread` (even if `resetUnread` is also set),
      0 when only `resetUnread`, unchanged with neither; every other contact,
      and the length and order of the list, are unchanged. */
  function UpdateContactPreview(contacts: seq<Contact>, id: ContactId, p: Preview,
                                incrementUnread: bool, resetUnread: bool): (r: seq<Contact>)
    ensures |r| == |contacts|
    ensures forall i :: 0 <= i < |contacts| && contacts[i].id != id ==> r[i] == contacts[i]
    ensures forall i :: 0 <= i < |contacts| && contacts[i].id == id ==>
      r[i].Shown() == p && r[i] == contacts[i].(lastMessage := p.text, time := p.time, unread := r[i].unread)
    ensures forall i :: 0 <= i < |contacts| && contacts[i].id == id && incrementUnread ==>
      r[i].unread == contacts[i].unread + 1
    ensures forall i :: 0 <= i < |contacts| && contacts[i].id == id && resetUnread && !incrementUnread ==>
      r[i].unread == 0
    ensures forall i :: 0 <= i < |contacts| && contacts[i].id == id && !resetUnread && !incrementUnread ==>
      r[i].unread == contacts[i].unread
  {
    seq(|contacts|, i requires 0 <= i < |contacts| =>
      var c := contacts[i];
      if c.id != id then c
      else
        var withPreview := c.(lastMessage := p.text, time := p.time);
        var next := if resetUnread then withPreview.(unread := 0) else withPreview;
        if incrementUnread then next.(unread := c.unread + 1) else next)
  }

  /** `handleContactSelect(c)`: `c` becomes both the selected contact and the
      ref's contact, the sidebar closes, and when `c` is one of the listed
      contacts (ids being unique) its badge is cleared; no other contact,
      thread or timer changes. */
  function HandleContactSelect(s: Home, c: Contact): (r: Home)
    ensures r.selected == Some(c) && r.selectedRef == Some(c) && !r.sidebarOpen
    ensures r.threads == s.threads && r.isTyping == s.isTyping && r.pending == s.pending
    ensures |r.contacts| == |s.contacts|
    ensures forall i :: 0 <= i < |s.contacts| && s.contacts[i].id != c.id ==> r.contacts[i] == s.contacts[i]
    ensures forall i :: 0 <= i < |s.contacts| ==> r.contacts[i] == s.contacts[i].(unread := r.contacts[i].unread)
    ensures c in s.contacts && UniqueIds(s.contacts) ==>
      forall i :: 0 <= i < |r.contacts| && r.contacts[i].id == c.id ==> r.contacts[i].unread == 0
  {
    var contacts :=
      if c.unread > 0 then
        seq(|s.contacts|, i requires 0 <= i < |s.contacts| =>
          if s.contacts[i].id == c.id then s.contacts[i].(unread := 0) else s.contacts[i])
      else s.contacts;
    s.(selected := Some(c), selectedRef := Some(c), sidebarOpen := false, contacts := contacts)
  }

  /** The message a send appends: the text exactly as typed, not trimmed. */
  function UserMessage(text: string, clock: Clock): Message {
    Message(clock.nowMs, text, FromUser, clock.timeLabel, Sent)
  }

  /** The reply the peer appends, with the text it picked. */
  function BotMessage(text: string, clock: Clock): Message {
    Message(clock.nowMs + 1, text, FromContact, clock.timeLabel, Received)
  }

  /** The guard of `sendMessage`: a contact is selected and the text is not
      blank. */
  predicate SendAccepted(s: Home, text: string) {
    s.selected.Some? && !IsBlank(text)
  }

  /** `sendMessage(text)`. A rejected send changes nothing. An accepted one
      appends exactly one user message, carrying the untrimmed text, at the
      end of the selected contact's thread and touches no other thread; that
      contact shows the message as its preview with a cleared badge; and one
      new timer chain bound to that contact is scheduled. */
  function SendMessage(s: Home, text: string, clock: Clock): (r: Home)
    ensures !SendAccepted(s, text) ==> r == s
    ensures SendAccepted(s, text) ==>
      var id := s.selected.value.id;
      && r.threads.Keys == s.threads.Keys + {id}
      && r.threads[id] == ThreadOf(s.threads, id) + [UserMessage(text, clock)]
      && (forall k :: k in s.threads && k != id ==> r.threads[k] == s.threads[k])
      && |r.contacts| == |s.contacts|
      && (forall i :: 0 <= i < |s.contacts| && s.contacts[i].id != id ==> r.contacts[i] == s.contacts[i])
      && (forall i :: 0 <= i < |s.contacts| && s.contacts[i].id == id ==>
            r.contacts[i] == s.contacts[i].(lastMessage := text, time := clock.timeLabel, unread := 0))
      && r.pending == s.pending + [ReplyTimer(id, Scheduled)]
      && r.selected == s.selected && r.selectedRef == s.selectedRef
      && r.sidebarOpen == s.sidebarOpen && r.isTyping == s.isTyping
  {
    if s.selected.None? || TrimsToEmpty(text) then s
    else
      var id := s.selected.value.id;
      var msg := UserMessage(text, clock);
      s.(threads := s.threads[id := ThreadOf(s.threads, id) + [msg]],
         contacts := UpdateContactPreview(s.contacts, id, Preview(msg.text, msg.time), false, true),
         pending := s.pending + [ReplyTimer(id, Scheduled)])
  }

  /** The body of the 3 s callback: the typing indicator goes off and one
      peer message with `text` is appended to the thread of `target`, the
      contact of the send, whatever is selected now; that contact shows the
      reply as its preview, and its badge is cleared if the ref still points
      at it and grows by one otherwise. */
  function DeliverReply(s: Home, target: ContactId, text: string, clock: Clock): (r: Home)
    ensures !r.isTyping
    ensures r.threads.Keys == s.threads.Keys + {target}
    ensures r.threads[target] == ThreadOf(s.threads, target) + [BotMessage(text, clock)]
    ensures forall k :: k in s.threads && k != target ==> r.threads[k] == s.threads[k]
    ensures |r.contacts| == |s.contacts|
    ensures forall i :: 0 <= i < |s.contacts| && s.contacts[i].id != target ==> r.contacts[i] == s.contacts[i]
    ensures forall i :: 0 <= i < |s.contacts| && s.contacts[i].id == target ==>
      r.contacts[i] == s.contacts[i].(lastMessage := text, time := clock.timeLabel, unread := r.contacts[i].unread)
    ensures forall i :: 0 <= i < |s.contacts| && s.contacts[i].id == target ==>
      r.contacts[i].unread ==
        if s.selectedRef.Some? && s.selectedRef.value.id == target then 0 else s.contacts[i].unread + 1
    ensures r.selected == s.selected && r.selectedRef == s.selectedRef
    ensures r.sidebarOpen == s.sidebarOpen && r.pending == s.pending
  {
    var msg := BotMessage(text, clock);
    var stillOnThisChat := s.selectedRef.Some? && s.selectedRef.value.id == target;
    s.(isTyping := false,
       threads := s.threads[target := ThreadOf(s.threads, target) + [msg]],
       contacts := UpdateContactPreview(s.contacts, target, Preview(msg.text, msg.time),
                                        !stillOnThisChat, stillOnThisChat))
  }

  /** The runtime fires the next timer of the pending chain `k`; `choice` is
      what `Math.floor(Math.random() * 8)` returned. The first firing only
      turns the typing indicator on; the second removes the chain and
      delivers one of the canned answers to the chain's contact. */
  function FireTimer(s: Home, k: nat, choice: nat, clock: Clock): (r: Home)
    requires k < |s.pending| && choice < |BotResponses|
    ensures s.pending[k].stage == Scheduled ==>
      && r.isTyping
      && r.pending == s.pending[k := ReplyTimer(s.pending[k].target, TypingShown)]
      && r.contacts == s.contacts && r.threads == s.threads
      && r.selected == s.selected && r.selectedRef == s.selectedRef && r.sidebarOpen == s.sidebarOpen
    ensures s.pending[k].stage == TypingShown ==>
      var id := s.pending[k].target;
      && !r.isTyping
      && r.pending == s.pending[..k] + s.pending[k + 1..]
      && r.threads.Keys == s.threads.Keys + {id}
      && r.threads[id] == ThreadOf(s.threads, id) + [BotMessage(BotResponses[choice], clock)]
      && r.threads[id][|r.threads[id]| - 1].text in BotResponses
      && (forall j :: j in s.threads && j != id ==> r.threads[j] == s.threads[j])
      && r.selected == s.selected && r.selectedRef == s.selectedRef && r.sidebarOpen == s.sidebarOpen
  {
    var t := s.pending[k];
    match t.stage
    case Scheduled =>
      s.(isTyping := true, pending := s.pending[k := t.(stage := TypingShown)])
    case TypingShown =>
      DeliverReply(s.(pending := s.pending[..k] + s.pending[k + 1..]), t.target, BotResponses[choice], clock)
  }

  /** The mount effect that derives every contact's preview from its thread;
      nothing but the previews changes. */
  function DerivePreviews(s: Home): (r: Home)
    ensures PreviewsInSync(r)
    ensures |r.contacts| == |s.contacts|
    ensures forall i :: 0 <= i < |s.contacts| ==>
      r.contacts[i] == s.contacts[i].(lastMessage := r.contacts[i].lastMessage, time := r.contacts[i].time)
    ensures r.(contacts := s.contacts) == s
  {
    var contacts := seq(|s.contacts|, i requires 0 <= i < |s.contacts| =>
      var p := LastPreview(ThreadOf(s.threads, s.contacts[i].id));
      s.contacts[i].(lastMessage := p.text, time := p.time));
    s.(contacts := contacts)
  }

  /** The mount effect that selects the first contact, if there is one: it
      becomes selection and ref, the sidebar closes, and only the first
      contact's badge may change, to 0 when ids are unique. */
  function AutoSelect(s: Home): (r: Home)
    ensures |s.contacts| > 0 ==> r.selected == Some(s.contacts[0]) && r.selectedRef == Some(s.contacts[0])
    ensures |s.contacts| > 0 ==> !r.sidebarOpen
    ensures |s.contacts| == 0 ==> r == s
    ensures r.threads == s.threads && r.pending == s.pending && r.isTyping == s.isTyping
    ensures |r.contacts| == |s.contacts|
    ensures forall i :: 0 <= i < |s.contacts| ==> r.contacts[i] == s.contacts[i].(unread := r.contacts[i].unread)
    ensures forall i :: 0 <= i < |s.contacts| && s.contacts[i].id != s.contacts[0].id ==> r.contacts[i] == s.contacts[i]
    ensures |s.contacts| > 0 && UniqueIds(s.contacts) ==> r.contacts[0].unread == 0
  {
    if |s.contacts| > 0 then HandleContactSelect(s, s.contacts[0]) else s
  }

  /** Both mount effects, in the order they are declared: the first contact
      is selected, then every preview is derived from its thread. */
  function Mount(s: Home): (r: Home)
    ensures PreviewsInSync(r)
    ensures |s.contacts| > 0 ==> r.selected == Some(s.contacts[0]) && r.selectedRef == Some(s.contacts[0])
    ensures r.threads == s.threads && r.pending == s.pending && r.isTyping == s.isTyping
    ensures |r.contacts| == |s.contacts|
    ensures forall i :: 0 <= i < |s.contacts| ==>
      r.contacts[i].id == s.contacts[i].id && r.contacts[i].name == s.contacts[i].name
      && r.contacts[i].avatar == s.contacts[i].avatar
    ensures forall i :: 0 <= i < |s.contacts| && s.contacts[i].id != s.contacts[0].id ==>
      r.contacts[i].unread == s.contacts[i].unread
    ensures |s.contacts| > 0 && UniqueIds(s.contacts) ==> r.contacts[0].unread == 0
    ensures |s.contacts| > 0 ==> !r.sidebarOpen
    ensures |s.contacts| == 0 ==> r.sidebarOpen == s.sidebarOpen && r.selected == s.selected
  {
    DerivePreviews(AutoSelect(s))
  }

  /** The navbar's menu button flips the sidebar and nothing else. */
  function ToggleSidebar(s: Home): (r: Home)
    ensures r.sidebarOpen != s.sidebarOpen
    ensures r.(sidebarOpen := s.sidebarOpen) == s
  {
    s.(sidebarOpen := !s.sidebarOpen)
  }

  /** The sidebar's close button and overlay hide it and change nothing else. */
  function CloseSidebar(s: Home): (r: Home)
    ensures !r.sidebarOpen
    ensures r.(sidebarOpen := s.sidebarOpen) == s
  {
    s.(sidebarOpen := false)
  }
}
