/** What the page computes from a cached task when it draws the list: the
    search filter over title, tags and notes, the tag chips and the notes
    preview of a card (scripts.js, `fetchTasks` and the notes save). */
module CardView {
  import opened Wrappers
  import opened Records
  import Text

  // ---------------------------------------------------------------------------
  // Notes preview

  /** The preview length of a card's notes. */
  const PREVIEW := 20

  /** `notes ? notes.substring(0, 20) + (notes.length > 20 ? '...' : '') : 'None'`:
      absent or empty notes read "None", short notes are shown whole, longer
      ones are cut to twenty characters followed by an ellipsis. */
  function NotesPreview(notes: Option<string>): (r: string)
    ensures (notes.None? || notes.value == []) ==> r == "None"
    ensures notes.Some? && 0 < |notes.value| <= PREVIEW ==> r == notes.value
    ensures notes.Some? && |notes.value| > PREVIEW ==> r == notes.value[..PREVIEW] + "..."
  {
    match notes
    case None => "None"
    case Some(n) =>
      if n == [] then "None"
      else n[..if |n| < PREVIEW then |n| else PREVIEW] + (if |n| > PREVIEW then "..." else "")
  }

  /** The preview of non-empty notes is never longer than 23 characters, and
      everything but the ellipsis is the start of the notes. */
  lemma PreviewIsPrefix(n: string)
    requires n != []
    ensures |NotesPreview(Some(n))| <= PREVIEW + 3
    ensures var p := NotesPreview(Some(n));
            var shown := if |n| > PREVIEW then p[..PREVIEW] else p;
            Text.OccursAt(shown, n, 0)
  {
  }

  /** Two long notes that start alike have the same preview: the preview
      depends only on the first twenty characters. */
  lemma PreviewForgetsTail(a: string, b: string)
    requires |a| > PREVIEW && |b| > PREVIEW && a[..PREVIEW] == b[..PREVIEW]
    ensures NotesPreview(Some(a)) == NotesPreview(Some(b))
  {
  }

  // ---------------------------------------------------------------------------
  // Tag chips

  /** `tags ? tags.split(',').map(tag => tag.trim()) : 'None'`: no chips for
      absent or empty tags, otherwise one trimmed chip per comma-separated
      piece. */
  function TagChips(tags: Option<string>): (r: Option<seq<string>>)
    ensures r.None? <==> tags.None? || tags.value == []
    ensures r.Some? ==> |r.value| == |Text.Split(tags.value, ',')|
    ensures r.Some? ==> forall k :: 0 <= k < |r.value| ==> r.value[k] == Text.Trim(Text.Split(tags.value, ',')[k])
  {
    match tags
    case None => None
    case Some(s) =>
      if s == [] then None
      else
        var pieces := Text.Split(s, ',');
        Some(seq(|pieces|, k requires 0 <= k < |pieces| => Text.Trim(pieces[k])))
  }

  /** There is one chip more than there are commas; no chip holds a comma or
      starts or ends with white space, and every chip occurs in the tags. */
  lemma TagChipsShape(s: string, k: nat)
    requires s != [] && k < |TagChips(Some(s)).value|
    ensures |TagChips(Some(s)).value| == Text.CountChar(s, ',') + 1
    ensures var c := TagChips(Some(s)).value[k];
            && ',' !in c
            && (c != [] ==> !Text.IsSpace(c[0]) && !Text.IsSpace(c[|c| - 1]))
            && exists i :: Text.OccursAt(c, s, i)
  {
    Text.SplitCount(s, ',');
    var piece := Text.Split(s, ',')[k];
    var c := Text.Trim(piece);
    var i := Text.SplitPieceOccurs(s, ',', k);
    var j := Text.TrimKeepsMiddle(piece);
    Text.OccursAtTrans(c, piece, s, j, i);
    Text.SplitPiecesFree(s, ',');
    assert forall x :: 0 <= x < |c| ==> c[x] == piece[j + x];
  }

  /** Tags written as trimmed, comma-free chips joined by commas come back as
      exactly those chips. */
  lemma TagChipsJoin(chips: seq<string>)
    requires |chips| >= 1
    requires forall k :: 0 <= k < |chips| ==> ',' !in chips[k] && Text.Trim(chips[k]) == chips[k]
    requires Text.Join(chips, ',') != []
    ensures TagChips(Some(Text.Join(chips, ','))) == Some(chips)
  {
    var s := Text.Join(chips, ',');
    Text.SplitJoin(chips, ',');
    assert Text.Split(s, ',') == chips;
    var t := TagChips(Some(s));
    assert t.Some? && |t.value| == |chips|;
    forall k | 0 <= k < |chips|
      ensures t.value[k] == chips[k]
    {
      assert t.value[k] == Text.Trim(chips[k]);
    }
    assert t.value == chips;
  }

  // ---------------------------------------------------------------------------
  // Search filter

  /** The filter predicate: the lower-cased search text occurs in the
      lower-cased title, or in the tags or the notes when they are non-empty. */
  predicate Matches(t: TaskJson, search: string)
  {
    var q := Text.Lower(search);
    || Text.Contains(Text.Lower(t.title), q)
    || (t.tags.Some? && t.tags.value != [] && Text.Contains(Text.Lower(t.tags.value), q))
    || (t.notes.Some? && t.notes.value != [] && Text.Contains(Text.Lower(t.notes.value), q))
  }

  /** `allTasks.filter(...)`: the matching tasks, in their original order. */
  function Filter(tasks: seq<TaskJson>, search: string): (r: seq<TaskJson>)
    ensures |r| <= |tasks|
    ensures forall t :: t in r <==> t in tasks && Matches(t, search)
  {
    if tasks == [] then []
    else
      var rest := Filter(tasks[1..], search);
      if Matches(tasks[0], search) then [tasks[0]] + rest else rest
  }

  /** Filtering a concatenation filters each part and keeps them in order: the
      filter never reorders tasks. */
  lemma {:induction false} FilterConcat(a: seq<TaskJson>, b: seq<TaskJson>, search: string)
    ensures Filter(a + b, search) == Filter(a, search) + Filter(b, search)
  {
    if a == [] {
      assert a + b == b;
    } else {
      var ab := a + b;
      assert ab[0] == a[0];
      assert ab[1..] == a[1..] + b;
      FilterConcat(a[1..], b, search);
      var head := if Matches(a[0], search) then [a[0]] else [];
      assert Filter(ab, search) == head + Filter(ab[1..], search);
      assert Filter(a, search) == head + Filter(a[1..], search);
      assert head + (Filter(a[1..], search) + Filter(b, search))
          == (head + Filter(a[1..], search)) + Filter(b, search);
    }
  }

  /** An empty search keeps every task. */
  lemma {:induction false} FilterEmptySearch(tasks: seq<TaskJson>)
    ensures Filter(tasks, "") == tasks
  {
    if tasks != [] {
      FilterEmptySearch(tasks[1..]);
      assert Text.Lower("") == "";
      Text.ContainsEmpty(Text.Lower(tasks[0].title));
      assert [tasks[0]] + tasks[1..] == tasks;
    }
  }

  /** The search ignores the case of its text. */
  lemma {:induction false} FilterIgnoresCase(tasks: seq<TaskJson>, s1: string, s2: string)
    requires Text.Lower(s1) == Text.Lower(s2)
    ensures Filter(tasks, s1) == Filter(tasks, s2)
  {
    if tasks != [] {
      FilterIgnoresCase(tasks[1..], s1, s2);
    }
  }

  /** Filtering twice with the same search is filtering once. */
  lemma {:induction false} FilterIdempotent(tasks: seq<TaskJson>, search: string)
    ensures Filter(Filter(tasks, search), search) == Filter(tasks, search)
  {
    if tasks != [] {
      FilterIdempotent(tasks[1..], search);
    }
  }

  /** Searching for any of a task's tag chips finds the task. */
  lemma ChipFindsTask(t: TaskJson, k: nat)
    requires TagChips(t.tags).Some? && k < |TagChips(t.tags).value|
    ensures Matches(t, TagChips(t.tags).value[k])
  {
    var s := t.tags.value;
    var c := TagChips(t.tags).value[k];
    TagChipsShape(s, k);
    var i :| Text.OccursAt(c, s, i);
    Text.LowerOccursAt(c, s, i);
    assert Text.OccursAt(Text.Lower(c), Text.Lower(s), i);
  }
}
