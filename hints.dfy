/** The hinting stage of the creation page: the hint inputs built from the word starts, their
  * order, `validateHints` and the checks of the "Create Crossword" button. */
module Hints {
  import opened Grid
  import opened Text
  import opened Numbering

  /** One clue being written: its number, direction, the word it answers and the hint text. */
  datatype HintInput = HintInput(number: int, direction: Direction, word: string, hint: string)

  /** A clue as it is sent to the server (`label` is the clue number). */
  datatype ApiHint = ApiHint(hint: string, number: int, direction: Direction)

  /** The hint inputs of one word start: one per listed direction, in list order, hint empty. */
  function EntryHints(g: Board, e: WordStart): (hs: seq<HintInput>)
    ensures |hs| == |e.directions|
    ensures forall k :: 0 <= k < |hs| ==>
      hs[k] == HintInput(e.number, e.directions[k], WordFrom(g, e.directions[k], e.pos), "")
  {
    seq(|e.directions|, k requires 0 <= k < |e.directions| =>
      HintInput(e.number, e.directions[k], WordFrom(g, e.directions[k], e.pos), ""))
  }

  /** The hint inputs of a word-start list, entry after entry. */
  function HintsOf(g: Board, ws: seq<WordStart>): seq<HintInput>
  {
    if ws == [] then [] else HintsOf(g, ws[..|ws| - 1]) + EntryHints(g, ws[|ws| - 1])
  }

  /** The two nested `forEach` loops of handleAddHints and handleDisableUnusedCells. */
  method BuildHintInputs(g: Board, rows: int, cols: int, ws: seq<WordStart>) returns (hs: seq<HintInput>)
    requires IsRect(g, rows, cols)
    requires forall i :: 0 <= i < |ws| ==> 0 <= ws[i].pos.row < rows && 0 <= ws[i].pos.col < cols
    ensures hs == HintsOf(g, ws)
  {
    hs := [];
    for i := 0 to |ws|
      invariant hs == HintsOf(g, ws[..i])
    {
      var e := ws[i];
      ghost var before := hs;
      for k := 0 to |e.directions|
        invariant hs == before + EntryHints(g, e)[..k]
      {
        var word := GetWordAtPosition(g, rows, cols, e.pos, e.directions[k]);
        hs := hs + [HintInput(e.number, e.directions[k], word, "")];
        assert EntryHints(g, e)[..k + 1] == EntryHints(g, e)[..k] + [EntryHints(g, e)[k]];
      }
      assert ws[..i + 1][..i] == ws[..i];
    }
    assert ws[..|ws|] == ws;
  }

  /** Directions lists as the numbering pass writes them: ACROSS before DOWN, no repeats. */
  predicate ProperDirections(ds: seq<Direction>)
  {
    ds == [] || ds == [Across] || ds == [Down] || ds == [Across, Down]
  }

  /** Entry `i` carries number `i + 1` and a proper directions list. */
  predicate NumberedInOrder(ws: seq<WordStart>)
  {
    forall i :: 0 <= i < |ws| ==> ws[i].number == i + 1 && ProperDirections(ws[i].directions)
  }

  /** A word-start list of a grid is numbered in order. */
  lemma WordStartsNumbered(g: Board, rows: int, cols: int, ws: seq<WordStart>)
    requires IsRect(g, rows, cols) && rows >= 0 && cols >= 0 && WordStartsOf(g, rows, cols, ws)
    ensures NumberedInOrder(ws)
  {
    forall i | 0 <= i < |ws|
      ensures ws[i].number == i + 1 && ProperDirections(ws[i].directions)
    {
      assert ws[i].directions == DirectionsAt(g, ws[i].pos);
    }
  }

  /** Clue order: by number, and ACROSS before DOWN under the same number. */
  predicate HintBefore(a: HintInput, b: HintInput)
  {
    a.number < b.number || (a.number == b.number && a.direction == Across && b.direction == Down)
  }

  predicate StrictlyOrdered(hs: seq<HintInput>)
  {
    forall i, j :: 0 <= i < j < |hs| ==> HintBefore(hs[i], hs[j])
  }

  /** The inputs of the entries before the last, then the last entry's. */
  lemma HintsOfSplit(g: Board, ws: seq<WordStart>)
    requires ws != [] && NumberedInOrder(ws)
    ensures NumberedInOrder(ws[..|ws| - 1])
    ensures HintsOf(g, ws) == HintsOf(g, ws[..|ws| - 1]) + EntryHints(g, ws[|ws| - 1])
  {
    var init := ws[..|ws| - 1];
    forall i | 0 <= i < |init|
      ensures init[i].number == i + 1 && ProperDirections(init[i].directions)
    {
      assert init[i] == ws[i];
    }
  }

  /** The hint inputs are in clue order. */
  lemma {:induction false} HintsOfOrdered(g: Board, ws: seq<WordStart>)
    requires NumberedInOrder(ws)
    ensures StrictlyOrdered(HintsOf(g, ws))
    ensures forall h :: h in HintsOf(g, ws) ==> 1 <= h.number <= |ws|
  {
    if ws != [] {
      var n := |ws|;
      HintsOfSplit(g, ws);
      HintsOfOrdered(g, ws[..n - 1]);
      var a, b := HintsOf(g, ws[..n - 1]), EntryHints(g, ws[n - 1]);
      forall i, j | 0 <= i < j < |a + b|
        ensures HintBefore((a + b)[i], (a + b)[j])
      {
        if j < |a| {
          assert (a + b)[i] == a[i] && (a + b)[j] == a[j];
        } else if i < |a| {
          assert (a + b)[i] in a;
          assert (a + b)[j].number == n;
        } else {
          assert ws[n - 1].directions == [Across, Down];
        }
      }
      forall h: HintInput | h in a + b
        ensures 1 <= h.number <= n
      {
        if h !in a {
          var k :| 0 <= k < |b| && b[k] == h;
        }
      }
    }
  }

  /** Every hint input names an entry, a direction that entry opens, and that word; its hint
    * text starts out empty. */
  lemma {:induction false} HintsOfSound(g: Board, ws: seq<WordStart>)
    requires NumberedInOrder(ws)
    ensures forall h :: h in HintsOf(g, ws) ==>
      1 <= h.number <= |ws| && h.direction in ws[h.number - 1].directions &&
      h.word == WordFrom(g, h.direction, ws[h.number - 1].pos) && h.hint == ""
  {
    if ws != [] {
      var n := |ws|;
      var init := ws[..n - 1];
      HintsOfSplit(g, ws);
      HintsOfSound(g, init);
      var a, b := HintsOf(g, init), EntryHints(g, ws[n - 1]);
      forall h: HintInput | h in a + b
        ensures 1 <= h.number <= n && h.direction in ws[h.number - 1].directions &&
          h.word == WordFrom(g, h.direction, ws[h.number - 1].pos) && h.hint == ""
      {
        if h in a {
          assert ws[h.number - 1] == init[h.number - 1];
        } else {
          var k :| 0 <= k < |b| && b[k] == h;
        }
      }
    }
  }

  /** Every word an entry opens has its hint input. */
  lemma {:induction false} HintsOfComplete(g: Board, ws: seq<WordStart>)
    requires NumberedInOrder(ws)
    ensures forall i, d :: 0 <= i < |ws| && d in ws[i].directions ==>
      HintInput(i + 1, d, WordFrom(g, d, ws[i].pos), "") in HintsOf(g, ws)
  {
    if ws != [] {
      var n := |ws|;
      var init := ws[..n - 1];
      HintsOfSplit(g, ws);
      HintsOfComplete(g, init);
      var a, b := HintsOf(g, init), EntryHints(g, ws[n - 1]);
      forall i, d | 0 <= i < n && d in ws[i].directions
        ensures HintInput(i + 1, d, WordFrom(g, d, ws[i].pos), "") in a + b
      {
        if i < n - 1 {
          assert ws[i] == init[i];
          assert HintInput(i + 1, d, WordFrom(g, d, init[i].pos), "") in a;
        } else {
          var k :| 0 <= k < |ws[i].directions| && ws[i].directions[k] == d;
          assert b[k] == HintInput(i + 1, d, WordFrom(g, d, ws[i].pos), "");
        }
      }
    }
  }

  /** The comparator handed to `sort`: by number, then ACROSS first. */
  function Compare(a: HintInput, b: HintInput): int
  {
    if a.number != b.number then a.number - b.number
    else if a.direction == Across then -1 else 1
  }

  /** What `Array.prototype.sort` promises about its result: no element compares below one
    * placed before it. */
  predicate SortedByCompare(hs: seq<HintInput>)
  {
    forall i, j :: 0 <= i < j < |hs| ==> Compare(hs[j], hs[i]) >= 0
  }

  /** The comparator agrees with clue order. */
  lemma CompareFollowsOrder(a: HintInput, b: HintInput)
    requires HintBefore(a, b)
    ensures Compare(a, b) < 0 && Compare(b, a) > 0
  {
  }

  /** A list in clue order is already sorted by the comparator. */
  lemma OrderedIsSorted(hs: seq<HintInput>)
    requires StrictlyOrdered(hs)
    ensures SortedByCompare(hs)
  {
    forall i, j | 0 <= i < j < |hs|
      ensures Compare(hs[j], hs[i]) >= 0
    {
      CompareFollowsOrder(hs[i], hs[j]);
    }
  }

  /** A list in clue order has exactly one sorted rearrangement: itself. So the sort in
    * handleAddHints leaves the list as built, and handleDisableUnusedCells, which does not sort,
    * produces the same order. */
  lemma {:induction false} SortKeepsClueOrder(hs: seq<HintInput>, out: seq<HintInput>)
    requires StrictlyOrdered(hs) && SortedByCompare(out) && multiset(out) == multiset(hs)
    ensures out == hs
    decreases |hs|
  {
    if hs == [] {
      assert |out| == |multiset(out)| == 0;
    } else {
      SameHead(hs, out);
      TailsMatch(hs, out);
      SortKeepsClueOrder(hs[1..], out[1..]);
      assert hs == [hs[0]] + hs[1..] && out == [out[0]] + out[1..];
    }
  }

  /** The first element of a sorted rearrangement of a list in clue order is the list's first. */
  lemma SameHead(hs: seq<HintInput>, out: seq<HintInput>)
    requires hs != [] && StrictlyOrdered(hs) && SortedByCompare(out) && multiset(out) == multiset(hs)
    ensures out != [] && out[0] == hs[0]
  {
    assert hs[0] in multiset(out);
    var j :| 0 <= j < |out| && out[j] == hs[0];
    assert out[0] in multiset(hs);
    var i :| 0 <= i < |hs| && hs[i] == out[0];
    if i > 0 {
      CompareFollowsOrder(hs[0], hs[i]);
      assert false;
    }
  }

  /** Dropping the shared first element keeps both orders and the rearrangement. */
  lemma TailsMatch(hs: seq<HintInput>, out: seq<HintInput>)
    requires hs != [] && out != [] && out[0] == hs[0] && multiset(out) == multiset(hs)
    requires StrictlyOrdered(hs) && SortedByCompare(out)
    ensures StrictlyOrdered(hs[1..]) && SortedByCompare(out[1..]) && multiset(out[1..]) == multiset(hs[1..])
  {
    TailMultiset(hs);
    TailMultiset(out);
  }

  lemma TailMultiset(hs: seq<HintInput>)
    requires hs != []
    ensures multiset(hs[1..]) == multiset(hs) - multiset{hs[0]}
  {
    assert hs == [hs[0]] + hs[1..];
    assert multiset(hs) == multiset{hs[0]} + multiset(hs[1..]);
  }

  /** Whether a validation passes, and every message it produced. */
  datatype ValidationResult = ValidationResult(isValid: bool, errors: seq<string>)

  /** `direction.toLowerCase()`. */
  function DirectionName(d: Direction): string
  {
    if d == Across then "across" else "down"
  }

  /** The message for a hint input left blank. */
  function MissingHintMessage(h: HintInput): string
  {
    "Missing hint for " + IntToString(h.number) + " " + DirectionName(h.direction) + " (" + h.word + ")"
  }

  /** The title test: no puzzle data, an empty title or one of whitespace only. */
  predicate TitleMissing(title: Option<string>)
  {
    title.None? || JsTrim(title.value) == ""
  }

  /** The message about the title, if it is missing. */
  function TitleErrors(title: Option<string>): seq<string>
  {
    if TitleMissing(title) then ["Missing a title for your crossword"] else []
  }

  /** The hint test: empty or whitespace only. */
  predicate HintMissing(h: HintInput)
  {
    h.hint == "" || JsTrim(h.hint) == ""
  }

  /** The messages for the blank hints, in list order. */
  function MissingHintErrors(hs: seq<HintInput>): (errs: seq<string>)
    ensures |errs| <= |hs|
  {
    if hs == [] then []
    else (if HintMissing(hs[0]) then [MissingHintMessage(hs[0])] else []) + MissingHintErrors(hs[1..])
  }

  /** There are no blank-hint messages exactly when no hint is blank. */
  lemma {:induction false} NoMissingErrors(hs: seq<HintInput>)
    ensures MissingHintErrors(hs) == [] <==> forall i :: 0 <= i < |hs| ==> !HintMissing(hs[i])
  {
    if hs != [] {
      NoMissingErrors(hs[1..]);
      assert forall i :: 1 <= i < |hs| ==> hs[i] == hs[1..][i - 1];
    }
  }

  /** `validateHints`: the title message first, then one message per blank hint; valid exactly
    * when there are no messages. */
  method ValidateHints(title: Option<string>, hs: seq<HintInput>) returns (v: ValidationResult)
    ensures v.errors == TitleErrors(title) + MissingHintErrors(hs)
    ensures v.isValid <==> !TitleMissing(title) && forall i :: 0 <= i < |hs| ==> !HintMissing(hs[i])
  {
    var errors: seq<string> := [];
    if title.None? || JsTrim(title.value) == "" {
      errors := errors + ["Missing a title for your crossword"];
    }
    var missing := CollectMissingHints(hs);
    errors := errors + missing;
    NoMissingErrors(hs);
    v := ValidationResult(|errors| == 0, errors);
  }

  /** The `forEach` of validateHints: one message per blank hint, in list order. */
  method CollectMissingHints(hs: seq<HintInput>) returns (errors: seq<string>)
    ensures errors == MissingHintErrors(hs)
  {
    errors := [];
    var i := 0;
    while i < |hs|
      invariant 0 <= i <= |hs|
      invariant errors + MissingHintErrors(hs[i..]) == MissingHintErrors(hs)
    {
      MissingHintStep(hs, i);
      if HintMissing(hs[i]) {
        errors := errors + [MissingHintMessage(hs[i])];
      }
      i := i + 1;
    }
  }

  /** Going over hint `i` appends its message, if any, to those already collected. */
  lemma MissingHintStep(hs: seq<HintInput>, i: int)
    requires 0 <= i < |hs|
    ensures MissingHintErrors(hs[i..]) ==
      (if HintMissing(hs[i]) then [MissingHintMessage(hs[i])] else []) + MissingHintErrors(hs[i + 1..])
  {
    assert hs[i..][1..] == hs[i + 1..];
  }

  /** What pressing "Create Crossword" leads to: the dialog with these messages, or a request
    * carrying these clues. */
  datatype PublishOutcome = Rejected(errors: seq<string>) | Submitted(hints: seq<ApiHint>, status: string)

  /** `finalHints`: each hint input as sent, keeping its text, number and direction. */
  function ToApiHints(hs: seq<HintInput>): (api: seq<ApiHint>)
    ensures |api| == |hs|
    ensures forall i :: 0 <= i < |hs| ==> api[i] == ApiHint(hs[i].hint, hs[i].number, hs[i].direction)
  {
    seq(|hs|, i requires 0 <= i < |hs| => ApiHint(hs[i].hint, hs[i].number, hs[i].direction))
  }

  /** The button's checks: validateHints, then the privacy status; the request is built only
    * when both pass. */
  method PublishCheck(title: Option<string>, hs: seq<HintInput>, status: string) returns (r: PublishOutcome)
    ensures r.Submitted? <==> !TitleMissing(title) && (forall i :: 0 <= i < |hs| ==> !HintMissing(hs[i])) && status != ""
    ensures r.Submitted? ==> r.hints == ToApiHints(hs) && r.status == status
    ensures r.Rejected? ==>
      r.errors == TitleErrors(title) + MissingHintErrors(hs) + (if status == "" then ["Privacy status is required"] else [])
  {
    var v := ValidateHints(title, hs);
    var errors := v.errors;
    if status == "" {
      errors := errors + ["Privacy status is required"];
    }
    if !v.isValid || status == "" {
      return Rejected(errors);
    }
    var finalHints := ToApiHints(hs);
    return Submitted(finalHints, status);
  }
}
