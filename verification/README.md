# Simulated chat: conversation-state model

A Dafny model of the local state machine behind a client-side chat page. The
page keeps a list of contacts. Each contact has a preview of its last message
and an unread badge. The page also keeps one append-only message thread per
contact, a selected contact and a "peer is typing" flag. A simulated peer
answers every message the user sends: after 1 s it shows the typing
indicator, and after 3 s it appends one of eight canned answers. The chat
window holds the text being typed and an emoji picker. It forwards a message
only when the text is not blank.

Modules:

- `JsText` (`js_text.dfy`): JavaScript's `String.prototype.trim`. It uses the
  exact set of code points ECMA-262 counts as white space or line
  terminators. A text is blank when trimming it leaves nothing.
- `Conversation` (`conversation.dfy`): the page component `Home` in
  `pages/index.js`. Each React state update is a pure function on a `Home`
  value: selecting a contact, sending, the two timer callbacks, the two
  mount effects and the sidebar toggles.
- `Seed` (`seed.dfy`): the five seed contacts and their opening threads.
- `ChatWindow` (`chat_window.dfy`): the input box of
  `components/ChatWindow.js`. It covers submit, the Enter key, the emoji
  palette, the picker toggle, the send button's enable rule and the status
  glyph of a bubble.
- `ChatApp` (`chat_app.dfy`): the page and the input box composed and driven
  by events. It proves an invariant of every reachable state. It also proves
  what a send and its delayed reply do end to end.

Both `setTimeout` calls of one send are modelled as one pending
`ReplyTimer` that fires twice. The first firing turns the typing indicator
on. The second appends the reply and removes the timer. JavaScript runs the
1 s callback of a send before its 3 s callback, so the model keeps that
order. Timers of different sends may fire in any interleaving, which is more
than real timing allows. The reply is bound to the contact selected at send
time (the callback's closure). It compares that contact with the
selection current when it fires (the ref).

The invariant `ChatApp.Wf` holds in every state reachable from the mounted
start:
- contact ids are unique;
- the selected contact and the ref agree;
- every contact's preview is the last message of its own thread;
- the selected contact has no unread badge;
- a message is from the user exactly when its status is `sent`;
- the typing indicator is on only while some reply is still due.

In three places the code behaves differently from what a reader might
expect, and the model follows the code:
- selecting a contact does not look its id up. The contact object the
  sidebar hands over simply becomes the selection;
- a reply's status is `received`, not "delivered";
- when `updateContactPreview` gets both flags, the increment wins, because
  it is applied after the reset.

## Model

| member | source | states |
|---|---|---|
| JsText.Trim | components/ChatWindow.js:37 | the trimmed text is the slice of the input between a blank leading run and a blank trailing run; it neither starts nor ends with white space, and is empty exactly when every character is white space |
| JsText.TrimsToEmpty | pages/index.js:137 | the test `!text.trim()` holds exactly when every character of the text is white space |
| JsText.BlankConcat | components/ChatWindow.js:56 | text built by concatenation is blank exactly when both parts are |
| Conversation.LastPreview | pages/index.js:86-90 | an empty or missing thread previews as empty text and time; otherwise the preview is the text and time of the thread's last message |
| Conversation.UpdateContactPreview | pages/index.js:93-102 | only contacts with the given id change; they show the given text and time; unread becomes old+1 when incrementing (even if reset is also set), 0 on reset alone, and stays the same with neither flag; length, order and all other contacts are preserved |
| Conversation.HandleContactSelect | pages/index.js:105-118 | the contact becomes both the selection and the ref, and the sidebar closes; no thread, timer or other contact changes; for a listed contact with unique ids, its unread is 0 afterwards |
| Conversation.SendMessage | pages/index.js:136-158 | with no selection or blank text nothing changes; otherwise exactly one message is appended to the end of the selected thread, with the untrimmed text, sender user and status sent; other threads are untouched; that contact's preview becomes the message and its unread 0; one timer chain bound to that contact is scheduled |
| Conversation.DeliverReply | pages/index.js:160-193 | typing goes off; exactly one contact message with status received is appended to the send-time contact's thread, whatever is selected now; that contact's preview becomes the reply; its unread is reset if the ref is still on it and is old+1 otherwise |
| Conversation.FireTimer | pages/index.js:156-194 | the first firing of a chain only turns typing on; the second turns it off, removes that chain and appends one canned answer chosen by the index in [0, 8) to the chain's thread, leaving the other threads alone |
| Conversation.DerivePreviews | pages/index.js:128-133 | afterwards every contact's preview equals the last-message preview of its thread; nothing else changes |
| Conversation.AutoSelect | pages/index.js:121-125 | with a non-empty list the first contact becomes selection and ref and the sidebar closes; only the first contact's badge may change, and it is 0 when ids are unique; with an empty list nothing changes |
| Conversation.Mount | pages/index.js:120-133 | the two mount effects in declaration order: the first contact is selected, the sidebar closes and every preview is in sync with its thread; ids, names and avatars are kept, and every badge but the first contact's is unchanged |
| Conversation.ToggleSidebar | pages/index.js:199 | the menu button flips the sidebar flag and changes nothing else |
| Conversation.CloseSidebar | pages/index.js:207 | closing hides the sidebar and changes nothing else |
| ChatWindow.HandleSubmit | components/ChatWindow.js:35-42 | the raw input is forwarded if and only if it is not blank; after a forward the input is empty and the picker closed; a blank input leaves the box unchanged |
| ChatWindow.HandleKeyPress | components/ChatWindow.js:45-50 | Enter without Shift behaves as submit; Shift+Enter and every other key forward nothing and change nothing |
| ChatWindow.AddEmoji | components/ChatWindow.js:55-57 | the new input is the old input followed by the glyph; the picker flag is unchanged |
| ChatWindow.ToggleEmojiPicker | components/ChatWindow.js:54 | the picker flag is negated and the input kept |
| ChatWindow.SendButtonDisabled | components/ChatWindow.js:151 | the send button is disabled exactly when the input is blank |
| ChatWindow.StatusGlyph | components/ChatWindow.js:100-103 | only the user's messages get a glyph: a single tick when sent, a double tick otherwise |
| ChatWindow.SendDisabledIffSubmitIgnored | components/ChatWindow.js:151 | the disabled rule of the button is the same predicate as the submit guard, so a disabled state also ignores Enter |
| ChatWindow.ToggleTwiceRestores | components/ChatWindow.js:54 | toggling the picker twice restores the original box |
| ChatWindow.EmojiEnablesSend | components/ChatWindow.js:53-57 | appending any palette glyph makes the input non-blank, so submit then forwards the old input followed by the glyph |
| Seed.MountedSeed | pages/index.js:52-75 | after mounting the seed, the first contact is selected, every unread is 0 and each contact previews the last line of its opening thread |
| ChatApp.MountIsWf | pages/index.js:120-133 | from any first-render state with unique ids, agreeing selection and ref and consistent threads, the two mount effects produce a state satisfying the whole page invariant |
| ChatApp.StartIsWf | pages/index.js:78-133 | the mounted seed state satisfies the page invariant |
| ChatApp.SelectKeepsWf | pages/index.js:105-118 | selecting a listed contact preserves the invariant, including that the selected contact shows no unread badge |
| ChatApp.SendKeepsWf | pages/index.js:136-158 | a send, accepted or not, preserves the invariant, including previews in sync with threads |
| ChatApp.DeliverKeepsWf | pages/index.js:160-193 | delivering a reply preserves the invariant |
| ChatApp.FireKeepsWf | pages/index.js:156-194 | either timer firing preserves the invariant, including that typing implies a pending reply |
| ChatApp.StepKeepsWf | pages/index.js:202-215 | every user or timer event the page wires up preserves the invariant |
| ChatApp.PickKeepsWf | pages/index.js:105-118 | a click on a contact, listed or out of range, preserves the invariant |
| ChatApp.KeyKeepsWf | components/ChatWindow.js:45-50 | a key press in the input, whether or not it sends, preserves the invariant |
| ChatApp.ClickKeepsWf | components/ChatWindow.js:35-42 | a click on the send button, enabled or not, preserves the invariant |
| ChatApp.TimerKeepsWf | pages/index.js:156-194 | a timer event, whichever chain and answer it names, preserves the invariant |
| ChatApp.RunKeepsWf | pages/index.js:77-195 | every state reached by any event sequence from a well-formed state is well formed |
| ChatApp.ReachableIsWf | pages/index.js:77-195 | every state reachable from the page's start satisfies the invariant |
| ChatApp.StepAppendsOnly | pages/index.js:147-150 | no event removes or rewrites a message: every old thread is a prefix of its new self; contact ids, names and avatars keep their order |
| ChatApp.SendAppendsOnly | pages/index.js:147-150 | a send keeps every thread a prefix of its successor and keeps the directory |
| ChatApp.FireAppendsOnly | pages/index.js:182-185 | either timer firing keeps every thread a prefix of its successor and keeps the directory |
| ChatApp.RunAppendsOnly | pages/index.js:182-185 | over any run, threads only grow at their ends and the directory is unchanged |
| ChatApp.NoDoubleTick | components/ChatWindow.js:100-103 | in a reachable state no bubble shows the double tick, since the user's messages are always sent |
| ChatApp.SendThenReplyWhileWatching | pages/index.js:136-194 | with the ref on the selected contact, an accepted send followed by its two timer firings grows that thread by exactly two: the user's text, then a canned answer; typing is on between the firings, then off; the contact's unread is 0 and previews the answer; the pending timers are as before the send |
| ChatApp.FireChainTwice | pages/index.js:156-194 | firing a fresh chain twice turns typing on and then equals one reply delivery to the chain's contact, with that chain removed and the indicator as the first firing left it |
| ChatApp.SendThenSwitchAway | pages/index.js:187-193 | switching to another contact before the reply arrives still delivers it to the original contact, whose badge then reads exactly 1 |
| ChatApp.ReselectKeepsCleared | pages/index.js:105-118 | selecting A, then B, then A again leaves A's unread at 0 |

## Left out

- Sidebar and navbar markup, the React rendering and the scroll-to-bottom effect are not modelled: they only project the state. The `mousedown` listener that closes the picker on an outside click is also left out.
- `Date.now()` and `toLocaleTimeString` are a `Clock` parameter of each event (a millisecond number and an opaque label). Message ids are not claimed to be unique, because the code does not make them so.
- `Math.random()` is floating point. The reply choice is an index in [0, 8) given with the timer event.
- Real timer ordering between different sends is not modelled. Any interleaving of the pending chains is allowed, which includes every order real delays produce.
- Browser form behaviour is not modelled. In particular, HTML's implicit form submission on an Enter key press that is not prevented is left out. Only `handleKeyPress` and the send button reach `handleSubmit` here.
- Unread counts are always present natural numbers, as in the seed data. The `|| 0` fallback for a missing count therefore never applies.
- Conversation.FireTimer: its reply branch states the threads, pending timers and typing flag. The preview and unread effects are stated on Conversation.DeliverReply, which that branch calls.
- Conversation.HandleContactSelect: clearing the badge is promised only for a listed contact with unique ids. The source tests the passed object's own count, so for an unlisted or stale object the result depends on that object.
