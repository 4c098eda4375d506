/**
 The fixed data the page starts from: five contacts with empty previews and
 no unread messages, and an opening thread for each of them.
 */
module Seed {
  import opened Optional
  import opened Conversation

  const SeedContacts: seq<Contact> := [
    Contact(1, "Dhruv", "👩‍💼", "", "", 0),
    Contact(2, "Vatsal", "👨‍💻", "", "", 0),
    Contact(3, "Om", "👩‍🎨", "", "", 0),
    Contact(4, "Parth", "👨‍🔬", "", "", 0),
    Contact(5, "Lax", "👩‍🏫", "", "", 0)
  ]

  const InitialThreads: map<ContactId, seq<Message>> := map[
    1 := [
      Message(1, "Hey, how are you doing?", FromContact, "2:25 PM", Received),
      Message(2, "I'm good! Just working on some projects.", FromUser, "2:27 PM", Sent),
      Message(3, "That sounds interesting! What kind of projects?", FromContact, "2:28 PM", Received)
    ],
    2 := [
      Message(1, "Can we schedule a meeting?", FromContact, "1:40 PM", Received),
      Message(2, "Sure! How about tomorrow at 3 PM?", FromUser, "1:42 PM", Sent)
    ],
    3 := [
      Message(1, "Thanks for your help!", FromContact, "12:10 PM", Received),
      Message(2, "You're welcome! Happy to help anytime.", FromUser, "12:12 PM", Sent)
    ],
    4 := [
      Message(1, "See you tomorrow", FromContact, "11:25 AM", Received),
      Message(2, "Looking forward to it!", FromUser, "11:27 AM", Sent)
    ],
    5 := [
      Message(1, "Great presentation today!", FromContact, "10:15 AM", Received),
      Message(2, "Thank you! I put a lot of effort into it.", FromUser, "10:17 AM", Sent),
      Message(3, "It really showed! The data visualization was excellent.", FromContact, "10:18 AM", Received)
    ]
  ]

  /** The state of the first render, before the mount effects run: nothing
      selected, sidebar closed, nobody typing, no timers. */
  const InitialHome: Home := Home(SeedContacts, InitialThreads, None, None, false, false, [])

  /** After mounting, the first contact is selected and every contact shows
      the last message of its opening thread. */
  lemma MountedSeed()
    ensures var h := Mount(InitialHome);
      && h.selected == Some(SeedContacts[0])
      && h.contacts[0].Shown() == Preview("That sounds interesting! What kind of projects?", "2:28 PM")
      && h.contacts[1].Shown() == Preview("Sure! How about tomorrow at 3 PM?", "1:42 PM")
      && h.contacts[2].Shown() == Preview("You're welcome! Happy to help anytime.", "12:12 PM")
      && h.contacts[3].Shown() == Preview("Looking forward to it!", "11:27 AM")
      && h.contacts[4].Shown() == Preview("It really showed! The data visualization was excellent.", "10:18 AM")
      && forall i :: 0 <= i < |h.contacts| ==> h.contacts[i].unread == 0
  {
  }
}
