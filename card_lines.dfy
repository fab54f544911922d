/** The element children of a task card as the list draws it, and where the
    progress save and mark-complete write the card's status text. Each child
    is its tag and the text it shows, without the template's white space.
    Task text is taken to hold no markup: the list interpolates it into the
    card's HTML unescaped, and markup in it would add or nest elements.
    Both handlers select the text with `p:nth-child(7)`; the card's seventh
    child is its Due Date line and the Status line is the eighth. */
module CardLines {
  import opened Wrappers
  import opened Records
  import Clock
  import CardView

  /** One element child of the card: its tag name and its text. */
  datatype Child = Child(tag: string, text: string)

  /** The text of the tag chips drawn side by side. */
  function ChipsText(chips: seq<string>): string
  {
    if chips == [] then "" else chips[0] + ChipsText(chips[1..])
  }

  /** The card of a task, child by child; `dueText` is the due date as the
      JSON carries it. */
  function Card(t: TaskJson, dueText: string): seq<Child>
  {
    var tags := CardView.TagChips(t.tags);
    [ Child("h5", t.title + " "),
      Child("p", if t.description.Some? && t.description.value != [] then t.description.value else "No description"),
      Child("div", ""),
      Child("input", ""),
      Child("p", "Time Spent: " + Clock.FormatTime(t.timeSpent)),
      Child("p", "Category: " + t.category),
      Child("p", "Due Date: " + dueText),
      Child("p", StatusText(t.status)),
      Child("p", "Priority: " + t.priority),
      Child("p", "Tags: " + if tags.Some? then ChipsText(tags.value) else "None"),
      Child("p", "Notes: " + CardView.NotesPreview(t.notes)),
      Child("button", "Add Notes"),
      Child("button", "Start Timer"),
      Child("button", "Reset Timer"),
      Child("a", "Edit"),
      Child("form", "Delete"),
      Child("button", "Mark as Completed") ]
  }

  /** The text of the Status line for a status. */
  function StatusText(status: string): string
  {
    "Status: " + status
  }

  /** `card.querySelector('p:nth-child(n)')`: the position of the first `p`
      that is the n-th child of its parent. For task text without markup the
      elements nested inside the children (`strong`, `span`, the progress
      bar, the Delete button) are never `p`, so only the card's own children
      can match. */
  function SelectPNthChild(c: seq<Child>, n: nat): Option<nat>
  {
    if 1 <= n <= |c| && c[n - 1].tag == "p" then Some(n - 1) else None
  }

  /** Setting the text of the selected element, or None when no element
      matches and the handler throws. */
  function SetText(c: seq<Child>, n: nat, text: string): Option<seq<Child>>
  {
    match SelectPNthChild(c, n)
    case None => None
    case Some(i) => Some(c[i := c[i].(text := text)])
  }

  /** The child number both handlers select. */
  const STATUS_CHILD_AS_WRITTEN: nat := 7

  /** The child number of the Status line. */
  const STATUS_CHILD: nat := 8

  /** As written: the status text replaces the Due Date line, and the Status
      line keeps the status the list was drawn with. */
  lemma StatusLandsOnDueDate(t: TaskJson, dueText: string, status: string)
    ensures var c := Card(t, dueText);
            var r := SetText(c, STATUS_CHILD_AS_WRITTEN, StatusText(status));
            && r.Some? && |r.value| == |c|
            && c[6].text == "Due Date: " + dueText
            && r.value[6].text == StatusText(status)
            && r.value[7].text == StatusText(t.status)
            && (forall k :: 0 <= k < |c| && k != 6 ==> r.value[k] == c[k])
  {
  }

  /** A Pending task saved at 50: the Due Date line reads "Status: In
      Progress" and the Status line still reads "Status: Pending". */
  lemma StatusLandsOnDueDateExample(t: TaskJson)
    requires t.status == PENDING
    ensures var r := SetText(Card(t, "2025-01-31"), STATUS_CHILD_AS_WRITTEN, StatusText(IN_PROGRESS));
            && r.Some?
            && r.value[6].text == "Status: In Progress"
            && r.value[7].text == "Status: Pending"
  {
    StatusLandsOnDueDate(t, "2025-01-31", IN_PROGRESS);
  }

  /** Selecting the eighth child, the write makes the card exactly the card
      of the task with its new status: the Status line changes and no other. */
  lemma StatusLineFixed(t: TaskJson, dueText: string, status: string)
    ensures SetText(Card(t, dueText), STATUS_CHILD, StatusText(status))
         == Some(Card(t.(status := status), dueText))
  {
    var c, d := Card(t, dueText), Card(t.(status := status), dueText);
    assert SelectPNthChild(c, STATUS_CHILD) == Some(7);
    assert c[7 := c[7].(text := StatusText(status))] == d by {
      forall k | 0 <= k < |d|
        ensures c[7 := c[7].(text := StatusText(status))][k] == d[k]
      {
      }
    }
  }
}
