/**
 The whole page: the controller state together with the chat window's input
 box, driven by the events a user and the timer queue can produce. The
 module states the invariant every reachable state keeps and the end-to-end
 facts about a send and its delayed reply.
 */
module ChatApp {
  import opened Optional
  import opened JsText
  import opened Conversation
  import opened ChatWindow
  import Seed

  datatype App = App(home: Home, box: InputBox)

  /** What can happen next: a click on a contact of the sidebar, the menu
      button, the sidebar's close button, an edit of the input, a click on a
      glyph of the open picker, the picker button, a key press in the input,
      a click on the send button, or the firing of a pending timer. */
  datatype Event =
    | PickContact(index: nat)
    | MenuClick
    | SidebarClose
    | EditInput(text: string)
    | PickEmoji(emoji: nat)
    | PickerButton
    | KeyPress(key: string, shiftKey: bool, clock: Clock)
    | SendClick(clock: Clock)
    | TimerFires(timer: nat, choice: nat, clock: Clock)

  /** The page as the user first sees it: the seed state after both mount
      effects, with an empty input and the picker closed. */
  function Start(): App {
    App(Mount(Seed.InitialHome), InputBox("", false))
  }

  /** Hands a submission's text, if any, to `sendMessage`. */
  function Forward(a: App, sub: Submission, clock: Clock): App {
    App(if sub.sent.Some? then SendMessage(a.home, sub.sent.value, clock) else a.home, sub.box)
  }

  /** One event. The input box is only on screen while a contact is
      selected, the palette only while the picker is open, and a disabled
      send button cannot be clicked; an event the page cannot produce in a
      state leaves that state unchanged. */
  function Step(a: App, e: Event): App {
    var onScreen := a.home.selected.Some?;
    match e
    case PickContact(k) =>
      if k < |a.home.contacts| then a.(home := HandleContactSelect(a.home, a.home.contacts[k])) else a
    case MenuClick => a.(home := ToggleSidebar(a.home))
    case SidebarClose => a.(home := CloseSidebar(a.home))
    case EditInput(text) => if onScreen then a.(box := a.box.(input := text)) else a
    case PickEmoji(k) =>
      if onScreen && a.box.pickerOpen && k < |Emojis| then a.(box := AddEmoji(a.box, Emojis[k])) else a
    case PickerButton => if onScreen then a.(box := ToggleEmojiPicker(a.box)) else a
    case KeyPress(key, shiftKey, clock) => PressKey(a, key, shiftKey, clock)
    case SendClick(clock) => ClickSend(a, clock)
    case TimerFires(k, choice, clock) =>
      if k < |a.home.pending| && choice < |BotResponses| then a.(home := FireTimer(a.home, k, choice, clock)) else a
  }

  /** A key press in the input box, which is on screen only while a contact
      is selected. */
  function PressKey(a: App, key: string, shiftKey: bool, clock: Clock): App {
    if a.home.selected.Some? then Forward(a, HandleKeyPress(a.box, key, shiftKey), clock) else a
  }

  /** A click on the send button, which can be clicked only while it is on
      screen and enabled. */
  function ClickSend(a: App, clock: Clock): App {
    if a.home.selected.Some? && !SendButtonDisabled(a.box.input) then Forward(a, HandleSubmit(a.box), clock) else a
  }

  /** The state after a sequence of events. */
  function Run(a: App, es: seq<Event>): App
    decreases |es|
  {
    if es == [] then a else Run(Step(a, es[0]), es[1..])
  }

  /** The contact the ref points at has no unread badge. */
  predicate SelectedIsRead(h: Home) {
    h.selectedRef.Some? ==>
      forall i :: 0 <= i < |h.contacts| && h.contacts[i].id == h.selectedRef.value.id ==> h.contacts[i].unread == 0
  }

  /** The user's messages are exactly the `sent` ones. */
  predicate SenderStatusAgree(threads: map<ContactId, seq<Message>>) {
    forall id, i :: id in threads && 0 <= i < |threads[id]| ==>
      (threads[id][i].sender == FromUser <==> threads[id][i].status == Sent)
  }

  /** The typing indicator is on only while some send's reply is still due. */
  predicate TypingHasReply(h: Home) {
    h.isTyping ==> exists k :: 0 <= k < |h.pending| && h.pending[k].stage == TypingShown
  }

  /** What every reachable state satisfies. */
  predicate Wf(h: Home) {
    && UniqueIds(h.contacts)
    && h.selected == h.selectedRef
    && PreviewsInSync(h)
    && SelectedIsRead(h)
    && SenderStatusAgree(h.threads)
    && TypingHasReply(h)
  }

  /** The contact list keeps its ids, names and avatars, in order. */
  predicate SameDirectory(before: seq<Contact>, after: seq<Contact>) {
    && |after| == |before|
    && forall i :: 0 <= i < |before| ==>
         after[i].id == before[i].id && after[i].name == before[i].name && after[i].avatar == before[i].avatar
  }

  /** Every thread of `before` is a prefix of the same thread in `after`. */
  predicate AppendOnly(before: map<ContactId, seq<Message>>, after: map<ContactId, seq<Message>>) {
    forall id :: id in before ==> id in after && before[id] <= after[id]
  }

  /** Appending one message to a thread of a consistent store keeps it
      consistent when the new message is consistent. */
  lemma AppendKeepsAgreement(threads: map<ContactId, seq<Message>>, id: ContactId, m: Message)
    requires SenderStatusAgree(threads)
    requires m.sender == FromUser <==> m.status == Sent
    ensures SenderStatusAgree(threads[id := ThreadOf(threads, id) + [m]])
  {
  }

  /** Appending a message `m` to the thread of `id` while `id`'s contacts
      switch their preview to `m`'s keeps every preview in sync. */
  lemma AppendKeepsPreviews(s: Home, r: Home, id: ContactId, m: Message)
    requires PreviewsInSync(s)
    requires r.threads == s.threads[id := ThreadOf(s.threads, id) + [m]]
    requires |r.contacts| == |s.contacts|
    requires forall i :: 0 <= i < |s.contacts| && s.contacts[i].id != id ==> r.contacts[i] == s.contacts[i]
    requires forall i :: 0 <= i < |s.contacts| && s.contacts[i].id == id ==>
      r.contacts[i].id == id && r.contacts[i].Shown() == Preview(m.text, m.time)
    ensures PreviewsInSync(r)
  {
  }

  /** Selecting a listed contact keeps the invariant. */
  lemma SelectKeepsWf(h: Home, k: nat)
    requires Wf(h) && k < |h.contacts|
    ensures Wf(HandleContactSelect(h, h.contacts[k]))
  {
  }

  /** A send keeps the invariant. */
  lemma SendKeepsWf(h: Home, text: string, clock: Clock)
    requires Wf(h)
    ensures Wf(SendMessage(h, text, clock))
  {
    SendKeepsThreads(h, text, clock);
    SendKeepsSelection(h, text, clock);
  }

  /** The thread half of `SendKeepsWf`: status agreement and previews. */
  lemma SendKeepsThreads(h: Home, text: string, clock: Clock)
    requires SenderStatusAgree(h.threads) && PreviewsInSync(h)
    ensures var r := SendMessage(h, text, clock);
      SenderStatusAgree(r.threads) && PreviewsInSync(r)
  {
    var r := SendMessage(h, text, clock);
    if SendAccepted(h, text) {
      var id := h.selected.value.id;
      var m := UserMessage(text, clock);
      assert r.threads == h.threads[id := ThreadOf(h.threads, id) + [m]];
      AppendKeepsAgreement(h.threads, id, m);
      AppendKeepsPreviews(h, r, id, m);
    }
  }

  /** The selection half of `SendKeepsWf`: ids, ref, badge and indicator. */
  lemma SendKeepsSelection(h: Home, text: string, clock: Clock)
    requires UniqueIds(h.contacts) && h.selected == h.selectedRef && SelectedIsRead(h) && TypingHasReply(h)
    ensures var r := SendMessage(h, text, clock);
      UniqueIds(r.contacts) && r.selected == r.selectedRef && SelectedIsRead(r) && TypingHasReply(r)
  {
    var r := SendMessage(h, text, clock);
    if SendAccepted(h, text) {
      SendAppendsOnly(h, text, clock);
      DirectoryKeepsUnique(h.contacts, r.contacts);
      ScheduleKeepsTyping(h, r, ReplyTimer(h.selected.value.id, Scheduled));
    }
  }

  /** Contact lists with the same ids in the same order are alike in having
      unique ids. */
  lemma DirectoryKeepsUnique(before: seq<Contact>, after: seq<Contact>)
    requires SameDirectory(before, after) && UniqueIds(before)
    ensures UniqueIds(after)
  {
  }

  /** Scheduling one more timer chain keeps a typing indicator justified. */
  lemma ScheduleKeepsTyping(h: Home, r: Home, t: ReplyTimer)
    requires TypingHasReply(h)
    requires r.isTyping == h.isTyping && r.pending == h.pending + [t]
    ensures TypingHasReply(r)
  {
    if r.isTyping {
      var k :| 0 <= k < |h.pending| && h.pending[k].stage == TypingShown;
      assert r.pending[k] == h.pending[k];
    }
  }

  /** Delivering a reply keeps the invariant; the typing indicator is off
      afterwards, whatever the pending timers are. */
  lemma DeliverKeepsWf(h: Home, target: ContactId, text: string, clock: Clock)
    requires Wf(h)
    ensures Wf(DeliverReply(h, target, text, clock))
  {
  }

  /** Firing a timer keeps the invariant. */
  lemma FireKeepsWf(h: Home, k: nat, choice: nat, clock: Clock)
    requires Wf(h) && k < |h.pending| && choice < |BotResponses|
    ensures Wf(FireTimer(h, k, choice, clock))
  {
    var t := h.pending[k];
    if t.stage == TypingShown {
      var h' := h.(pending := h.pending[..k] + h.pending[k + 1..]);
      assert Wf(h'.(isTyping := false));
      DeliverKeepsWf(h'.(isTyping := false), t.target, BotResponses[choice], clock);
      assert FireTimer(h, k, choice, clock) == DeliverReply(h'.(isTyping := false), t.target, BotResponses[choice], clock);
    } else {
      var r := FireTimer(h, k, choice, clock);
      assert r.pending[k].stage == TypingShown;
    }
  }

  /** Every event keeps the invariant. */
  lemma StepKeepsWf(a: App, e: Event)
    requires Wf(a.home)
    ensures Wf(Step(a, e).home)
  {
    match e
    case PickContact(k) => PickKeepsWf(a, k);
    case KeyPress(key, shiftKey, clock) => KeyKeepsWf(a, key, shiftKey, clock);
    case SendClick(clock) => ClickKeepsWf(a, clock);
    case TimerFires(k, choice, clock) => TimerKeepsWf(a, k, choice, clock);
    case MenuClick => SidebarKeepsWf(a.home);
    case SidebarClose => SidebarKeepsWf(a.home);
    case _ => assert Step(a, e).home == a.home;
  }

  /** A click on a contact keeps the invariant. */
  lemma PickKeepsWf(a: App, k: nat)
    requires Wf(a.home)
    ensures Wf(Step(a, PickContact(k)).home)
  {
    if k < |a.home.contacts| { SelectKeepsWf(a.home, k); }
  }

  /** A key press in the input keeps the invariant. */
  lemma KeyKeepsWf(a: App, key: string, shiftKey: bool, clock: Clock)
    requires Wf(a.home)
    ensures Wf(PressKey(a, key, shiftKey, clock).home)
  {
    ForwardKeepsWf(a, HandleKeyPress(a.box, key, shiftKey), clock);
  }

  /** A click on the send button keeps the invariant. */
  lemma ClickKeepsWf(a: App, clock: Clock)
    requires Wf(a.home)
    ensures Wf(ClickSend(a, clock).home)
  {
    ForwardKeepsWf(a, HandleSubmit(a.box), clock);
  }

  /** A timer firing keeps the invariant. */
  lemma TimerKeepsWf(a: App, k: nat, choice: nat, clock: Clock)
    requires Wf(a.home)
    ensures Wf(Step(a, TimerFires(k, choice, clock)).home)
  {
    if k < |a.home.pending| && choice < |BotResponses| { FireKeepsWf(a.home, k, choice, clock); }
  }

  /** Opening or closing the sidebar keeps the invariant. */
  lemma SidebarKeepsWf(h: Home)
    requires Wf(h)
    ensures Wf(ToggleSidebar(h)) && Wf(CloseSidebar(h))
  {
  }

  /** Handing a submission to `sendMessage` keeps the invariant. */
  lemma ForwardKeepsWf(a: App, sub: Submission, clock: Clock)
    requires Wf(a.home)
    ensures Wf(Forward(a, sub, clock).home)
  {
    if sub.sent.Some? { SendKeepsWf(a.home, sub.sent.value, clock); }
  }

  /** The mount effects establish the invariant from any first-render
      state with unique ids, an agreeing selection and ref, consistent
      threads and a consistent typing flag: in particular they bring every
      preview in sync with its thread and clear the first contact's badge. */
  lemma MountIsWf(s: Home)
    requires UniqueIds(s.contacts) && s.selected == s.selectedRef && SelectedIsRead(s)
    requires SenderStatusAgree(s.threads) && TypingHasReply(s)
    ensures Wf(Mount(s))
  {
  }

  /** The page starts in a state that satisfies the invariant. */
  lemma StartIsWf()
    ensures Wf(Start().home)
  {
    SeedIsConsistent();
    MountIsWf(Seed.InitialHome);
  }

  /** The first render meets what `MountIsWf` asks of it. */
  lemma SeedIsConsistent()
    ensures UniqueIds(Seed.InitialHome.contacts) && SenderStatusAgree(Seed.InitialHome.threads)
  {
  }

  /** Every state reachable by events from a well-formed one is well formed. */
  lemma {:induction false} RunKeepsWf(a: App, es: seq<Event>)
    requires Wf(a.home)
    ensures Wf(Run(a, es).home)
    decreases |es|
  {
    if es != [] {
      StepKeepsWf(a, es[0]);
      RunKeepsWf(Step(a, es[0]), es[1..]);
    }
  }

  /** Every state the page can reach from its start is well formed. */
  lemma ReachableIsWf(es: seq<Event>)
    ensures Wf(Run(Start(), es).home)
  {
    StartIsWf();
    RunKeepsWf(Start(), es);
  }

  /** No event removes or rewrites a message, and none changes which
      contacts are listed. */
  lemma StepAppendsOnly(a: App, e: Event)
    ensures AppendOnly(a.home.threads, Step(a, e).home.threads)
    ensures SameDirectory(a.home.contacts, Step(a, e).home.contacts)
  {
    match e
    case PickContact(k) =>
      if k < |a.home.contacts| { SelectAppendsOnly(a.home, a.home.contacts[k]); }
    case KeyPress(key, shiftKey, clock) =>
      KeyAppendsOnly(a, key, shiftKey, clock);
    case SendClick(clock) =>
      ClickAppendsOnly(a, clock);
    case TimerFires(k, choice, clock) =>
      if k < |a.home.pending| && choice < |BotResponses| { FireAppendsOnly(a.home, k, choice, clock); }
    case _ =>
      assert Step(a, e).home.threads == a.home.threads && Step(a, e).home.contacts == a.home.contacts;
  }

  /** A key press only appends, and keeps the directory. */
  lemma KeyAppendsOnly(a: App, key: string, shiftKey: bool, clock: Clock)
    ensures AppendOnly(a.home.threads, PressKey(a, key, shiftKey, clock).home.threads)
    ensures SameDirectory(a.home.contacts, PressKey(a, key, shiftKey, clock).home.contacts)
  {
    ForwardAppendsOnly(a, HandleKeyPress(a.box, key, shiftKey), clock);
  }

  /** A click on the send button only appends, and keeps the directory. */
  lemma ClickAppendsOnly(a: App, clock: Clock)
    ensures AppendOnly(a.home.threads, ClickSend(a, clock).home.threads)
    ensures SameDirectory(a.home.contacts, ClickSend(a, clock).home.contacts)
  {
    ForwardAppendsOnly(a, HandleSubmit(a.box), clock);
  }

  /** Selecting a contact keeps every thread and the directory. */
  lemma SelectAppendsOnly(h: Home, c: Contact)
    ensures AppendOnly(h.threads, HandleContactSelect(h, c).threads)
    ensures SameDirectory(h.contacts, HandleContactSelect(h, c).contacts)
  {
  }

  /** Handing a submission to `sendMessage` only appends, and keeps the
      directory. */
  lemma ForwardAppendsOnly(a: App, sub: Submission, clock: Clock)
    ensures AppendOnly(a.home.threads, Forward(a, sub, clock).home.threads)
    ensures SameDirectory(a.home.contacts, Forward(a, sub, clock).home.contacts)
  {
    if sub.sent.Some? { SendAppendsOnly(a.home, sub.sent.value, clock); }
  }

  /** Firing a timer only appends, and keeps the directory. */
  lemma FireAppendsOnly(h: Home, k: nat, choice: nat, clock: Clock)
    requires k < |h.pending| && choice < |BotResponses|
    ensures AppendOnly(h.threads, FireTimer(h, k, choice, clock).threads)
    ensures SameDirectory(h.contacts, FireTimer(h, k, choice, clock).contacts)
  {
    var r := FireTimer(h, k, choice, clock);
    if h.pending[k].stage == TypingShown {
      var id := h.pending[k].target;
      var h' := h.(pending := h.pending[..k] + h.pending[k + 1..]);
      assert r == DeliverReply(h', id, BotResponses[choice], clock);
      forall j | j in h.threads
        ensures j in r.threads && h.threads[j] <= r.threads[j]
      {
        if j == id { assert h.threads[j] == ThreadOf(h.threads, id); }
      }
    }
  }

  /** A send only appends, and keeps the directory. */
  lemma SendAppendsOnly(h: Home, text: string, clock: Clock)
    ensures AppendOnly(h.threads, SendMessage(h, text, clock).threads)
    ensures SameDirectory(h.contacts, SendMessage(h, text, clock).contacts)
  {
    var r := SendMessage(h, text, clock);
    if SendAccepted(h, text) {
      var id := h.selected.value.id;
      forall j | j in h.threads
        ensures j in r.threads && h.threads[j] <= r.threads[j]
      {
        if j == id { assert h.threads[j] == ThreadOf(h.threads, id); }
      }
    }
  }

  /** Over any run, threads only grow at their ends. */
  lemma {:induction false} RunAppendsOnly(a: App, es: seq<Event>)
    ensures AppendOnly(a.home.threads, Run(a, es).home.threads)
    ensures SameDirectory(a.home.contacts, Run(a, es).home.contacts)
    decreases |es|
  {
    if es != [] {
      var b := Step(a, es[0]);
      StepAppendsOnly(a, es[0]);
      RunAppendsOnly(b, es[1..]);
      var c := Run(b, es[1..]);
      forall id | id in a.home.threads
        ensures id in c.home.threads && a.home.threads[id] <= c.home.threads[id]
      {
        assert a.home.threads[id] <= b.home.threads[id] <= c.home.threads[id];
      }
    }
  }

  /** In a reachable state no bubble ever shows the double tick: the user's
      messages are always still `sent`. */
  lemma NoDoubleTick(h: Home, id: ContactId, i: nat)
    requires Wf(h) && id in h.threads && i < |h.threads[id]|
    ensures StatusGlyph(h.threads[id][i]) != Some("✓✓")
  {
  }

  /** A send followed by the two firings of its timer chain, with the ref
      left on the contact: the thread grows by exactly two messages, the
      user's text and then a canned answer; the badge stays cleared, the
      indicator is off and no timer is left over. */
  lemma SendThenReplyWhileWatching(h: Home, text: string, choice: nat, c1: Clock, c2: Clock, c3: Clock)
    requires h.selected == h.selectedRef && SendAccepted(h, text) && choice < |BotResponses|
    ensures var id := h.selected.value.id;
      var h1 := SendMessage(h, text, c1);
      var h2 := FireTimer(h1, |h.pending|, choice, c2);
      var h3 := FireTimer(h2, |h.pending|, choice, c3);
      && h2.isTyping
      && !h3.isTyping
      && h3.pending == h.pending
      && h3.threads[id] == ThreadOf(h.threads, id) + [UserMessage(text, c1), BotMessage(BotResponses[choice], c3)]
      && forall i :: 0 <= i < |h3.contacts| && h3.contacts[i].id == id ==>
           h3.contacts[i].unread == 0 && h3.contacts[i].lastMessage == BotResponses[choice]
  {
    var h1 := SendMessage(h, text, c1);
    SendThenReplyThread(h, text, choice, c1, c2, c3);
    SendThenReplyBadge(h, text, choice, c1, c2, c3);
  }

  /** The send appended its message and scheduled one chain at the end of
      the pending timers; firing that chain twice is one reply delivery to
      the same state with the pending timers as before the send. */
  lemma SendThenFireChain(h: Home, text: string, choice: nat, c1: Clock, c2: Clock, c3: Clock)
    requires SendAccepted(h, text) && choice < |BotResponses|
    ensures var h1 := SendMessage(h, text, c1);
      && |h1.pending| == |h.pending| + 1
      && FireTimer(h1, |h.pending|, choice, c2).isTyping
      && FireTimer(FireTimer(h1, |h.pending|, choice, c2), |h.pending|, choice, c3) ==
           DeliverReply(h1.(pending := h.pending, isTyping := true), h.selected.value.id, BotResponses[choice], c3)
  {
    var h1 := SendMessage(h, text, c1);
    var n := |h.pending|;
    assert h1.pending[n] == ReplyTimer(h.selected.value.id, Scheduled);
    assert h1.pending[..n] + h1.pending[n + 1..] == h.pending;
    FireChainTwice(h1, n, choice, c2, c3);
  }

  /** The thread half of `SendThenReplyWhileWatching`. */
  lemma SendThenReplyThread(h: Home, text: string, choice: nat, c1: Clock, c2: Clock, c3: Clock)
    requires SendAccepted(h, text) && choice < |BotResponses|
    ensures var id := h.selected.value.id;
      var h1 := SendMessage(h, text, c1);
      var h3 := FireTimer(FireTimer(h1, |h.pending|, choice, c2), |h.pending|, choice, c3);
      && !h3.isTyping
      && h3.pending == h.pending
      && h3.threads[id] == ThreadOf(h.threads, id) + [UserMessage(text, c1), BotMessage(BotResponses[choice], c3)]
  {
    var id := h.selected.value.id;
    var h1 := SendMessage(h, text, c1);
    SendThenFireChain(h, text, choice, c1, c2, c3);
    var h1' := h1.(pending := h.pending, isTyping := true);
    assert h1'.threads == h1.threads;
    assert ThreadOf(h1'.threads, id) == ThreadOf(h.threads, id) + [UserMessage(text, c1)];
  }

  /** The badge half of `SendThenReplyWhileWatching`. */
  lemma SendThenReplyBadge(h: Home, text: string, choice: nat, c1: Clock, c2: Clock, c3: Clock)
    requires h.selected == h.selectedRef && SendAccepted(h, text) && choice < |BotResponses|
    ensures var id := h.selected.value.id;
      var h1 := SendMessage(h, text, c1);
      var h3 := FireTimer(FireTimer(h1, |h.pending|, choice, c2), |h.pending|, choice, c3);
      forall i :: 0 <= i < |h3.contacts| && h3.contacts[i].id == id ==>
        h3.contacts[i].unread == 0 && h3.contacts[i].lastMessage == BotResponses[choice]
  {
    var h1 := SendMessage(h, text, c1);
    SendThenFireChain(h, text, choice, c1, c2, c3);
    var h1' := h1.(pending := h.pending, isTyping := true);
    DeliverWhileWatching(h1', h.selected.value.id, BotResponses[choice], c3);
  }

  /** A reply delivered while the ref is on its contact leaves that contact
      unbadged and previewing the reply. */
  lemma DeliverWhileWatching(s: Home, target: ContactId, text: string, clock: Clock)
    requires s.selectedRef.Some? && s.selectedRef.value.id == target
    ensures var r := DeliverReply(s, target, text, clock);
      forall i :: 0 <= i < |r.contacts| && r.contacts[i].id == target ==>
        r.contacts[i].unread == 0 && r.contacts[i].lastMessage == text
  {
  }

  /** The two firings of one pending chain: the first turns the indicator
      on, the second is the reply delivery with the chain removed. */
  lemma FireChainTwice(h: Home, n: nat, choice: nat, c2: Clock, c3: Clock)
    requires n < |h.pending| && h.pending[n].stage == Scheduled && choice < |BotResponses|
    ensures var h2 := FireTimer(h, n, choice, c2);
      && h2.isTyping
      && FireTimer(h2, n, choice, c3) ==
           DeliverReply(h.(pending := h.pending[..n] + h.pending[n + 1..], isTyping := true),
                        h.pending[n].target, BotResponses[choice], c3)
  {
    var h2 := FireTimer(h, n, choice, c2);
    assert h2.pending[..n] + h2.pending[n + 1..] == h.pending[..n] + h.pending[n + 1..];
  }

  /** A send, then a switch to another contact before the reply arrives:
      the reply still lands in the thread of the contact it was sent to, and
      that contact's badge reads exactly one. */
  lemma SendThenSwitchAway(h: Home, text: string, other: Contact, choice: nat, c1: Clock, c2: Clock, c3: Clock)
    requires SendAccepted(h, text) && choice < |BotResponses|
    requires other.id != h.selected.value.id
    ensures var id := h.selected.value.id;
      var h1 := SendMessage(h, text, c1);
      var h2 := FireTimer(h1, |h.pending|, choice, c2);
      var h3 := FireTimer(HandleContactSelect(h2, other), |h.pending|, choice, c3);
      && h3.threads[id] == ThreadOf(h.threads, id) + [UserMessage(text, c1), BotMessage(BotResponses[choice], c3)]
      && h3.selected == Some(other)
      && forall i :: 0 <= i < |h3.contacts| && h3.contacts[i].id == id ==> h3.contacts[i].unread == 1
  {
    SwitchAwayThread(h, text, other, choice, c1, c2, c3);
    SwitchAwayBadge(h, text, other, choice, c1, c2, c3);
  }

  /** The thread half of `SendThenSwitchAway`. */
  lemma SwitchAwayThread(h: Home, text: string, other: Contact, choice: nat, c1: Clock, c2: Clock, c3: Clock)
    requires SendAccepted(h, text) && choice < |BotResponses|
    ensures var id := h.selected.value.id;
      var h1 := SendMessage(h, text, c1);
      var h2 := FireTimer(h1, |h.pending|, choice, c2);
      var h3 := FireTimer(HandleContactSelect(h2, other), |h.pending|, choice, c3);
      && h3.threads[id] == ThreadOf(h.threads, id) + [UserMessage(text, c1), BotMessage(BotResponses[choice], c3)]
      && h3.selected == Some(other)
  {
    var id := h.selected.value.id;
    var h1 := SendMessage(h, text, c1);
    var n := |h.pending|;
    assert h1.pending[n] == ReplyTimer(id, Scheduled);
    var h2' := HandleContactSelect(FireTimer(h1, n, choice, c2), other);
    assert h2'.pending[n] == ReplyTimer(id, TypingShown);
    assert h2'.threads == h1.threads;
  }

  /** The badge half of `SendThenSwitchAway`. */
  lemma SwitchAwayBadge(h: Home, text: string, other: Contact, choice: nat, c1: Clock, c2: Clock, c3: Clock)
    requires SendAccepted(h, text) && choice < |BotResponses|
    requires other.id != h.selected.value.id
    ensures var id := h.selected.value.id;
      var h1 := SendMessage(h, text, c1);
      var h2 := FireTimer(h1, |h.pending|, choice, c2);
      var h3 := FireTimer(HandleContactSelect(h2, other), |h.pending|, choice, c3);
      forall i :: 0 <= i < |h3.contacts| && h3.contacts[i].id == id ==> h3.contacts[i].unread == 1
  {
    var id := h.selected.value.id;
    var h1 := SendMessage(h, text, c1);
    var n := |h.pending|;
    assert h1.pending[n] == ReplyTimer(id, Scheduled);
    var h2' := HandleContactSelect(FireTimer(h1, n, choice, c2), other);
    assert h2'.pending[n] == ReplyTimer(id, TypingShown);
    var s3 := h2'.(pending := h2'.pending[..n] + h2'.pending[n + 1..]);
    assert FireTimer(h2', n, choice, c3) == DeliverReply(s3, id, BotResponses[choice], c3);
    DeliverWhileAway(s3, id, BotResponses[choice], c3);
    forall i | 0 <= i < |s3.contacts| && s3.contacts[i].id == id
      ensures s3.contacts[i].unread == 0
    {
      assert s3.contacts[i] == h1.contacts[i];
    }
  }

  /** A reply delivered while the ref is elsewhere adds one to its
      contact's badge. */
  lemma DeliverWhileAway(s: Home, target: ContactId, text: string, clock: Clock)
    requires !(s.selectedRef.Some? && s.selectedRef.value.id == target)
    ensures var r := DeliverReply(s, target, text, clock);
      forall i :: 0 <= i < |r.contacts| && r.contacts[i].id == target ==>
        s.contacts[i].id == target && r.contacts[i].unread == s.contacts[i].unread + 1
  {
  }

  /** Coming back to a contact does not bring back its old badge. */
  lemma ReselectKeepsCleared(h: Home, a: nat, b: nat)
    requires UniqueIds(h.contacts) && a < |h.contacts| && b < |h.contacts|
    ensures var h1 := HandleContactSelect(h, h.contacts[a]);
      var h2 := HandleContactSelect(h1, h1.contacts[b]);
      var h3 := HandleContactSelect(h2, h2.contacts[a]);
      && h3.selected == Some(h2.contacts[a])
      && h3.contacts[a].unread == 0
  {
  }
}
