/**
  * The background worker: storage keys, download file names, and the report
  * generator that sorts, merges, describes and lays out a list of captured
  * actions.
  *
  * Timestamps are locale strings; `new Date(timestamp)` is represented by a
  * caller-supplied `when: string -> int`, and `String.prototype.trim` by a
  * caller-supplied `trim`.
  */
module Background {
  import opened Text
  import opened ActionModel

  // ---------------------------------------------------------------------------
  // Keys and file names
  // ---------------------------------------------------------------------------

  const STORAGE_PREFIX := "storage_"

  /** `getStorageKey(host, suffix)`: the prefix, then the host, then the suffix. */
  function StorageKey(host: string, suffix: string): (r: string)
    ensures StartsWith(r, STORAGE_PREFIX)
    ensures |r| == |STORAGE_PREFIX| + |host| + |suffix|
    ensures r[|STORAGE_PREFIX|..|STORAGE_PREFIX| + |host|] == host
    ensures r[|STORAGE_PREFIX| + |host|..] == suffix
  {
    STORAGE_PREFIX + host + suffix
  }

  /** Two hosts share a key for the same suffix only when they are the same host. */
  lemma StorageKeyInjective(h1: string, h2: string, suffix: string)
    requires StorageKey(h1, suffix) == StorageKey(h2, suffix)
    ensures h1 == h2
  {
    var k := StorageKey(h1, suffix);
    assert |h1| == |h2|;
    assert h1 == k[|STORAGE_PREFIX|..|STORAGE_PREFIX| + |h1|] == h2;
  }

  predicate IsSeparator(c: char) {
    c == ':' || c == '.'
  }

  /** The rewrite `iso.replace(/[:.]/g, '-')` used in generated file names. */
  function ReplaceSeparators(s: string): (r: string)
    ensures |r| == |s|
    ensures forall i :: 0 <= i < |s| ==> r[i] == (if IsSeparator(s[i]) then '-' else s[i])
  {
    if s == [] then []
    else [if IsSeparator(s[0]) then '-' else s[0]] + ReplaceSeparators(s[1..])
  }

  /** The rewrite leaves no separator behind, so applying it twice changes nothing more. */
  lemma ReplaceSeparatorsIdempotent(s: string)
    ensures ':' !in ReplaceSeparators(s) && '.' !in ReplaceSeparators(s)
    ensures ReplaceSeparators(ReplaceSeparators(s)) == ReplaceSeparators(s)
  {
    var r := ReplaceSeparators(s);
    forall i | 0 <= i < |r| ensures !IsSeparator(r[i]) { }
  }

  /** `${prefix}-${generateTimestamp()}.${ext}` for an ISO time `iso`. */
  function FileName(prefix: string, iso: string, ext: string): (r: string)
    ensures |r| == |prefix| + |iso| + |ext| + 2
    ensures StartsWith(r, prefix + "-") && EndsWith(r, "." + ext)
    ensures r[|prefix| + 1..|prefix| + 1 + |iso|] == ReplaceSeparators(iso)
  {
    var r := prefix + "-" + ReplaceSeparators(iso) + "." + ext;
    assert r == (prefix + "-") + ReplaceSeparators(iso) + ("." + ext);
    Affixes(prefix + "-", ReplaceSeparators(iso), "." + ext);
    r
  }

  /** With a dot-free prefix and extension, the only dot left is the one before the extension. */
  lemma FileNameSingleDot(prefix: string, iso: string, ext: string)
    requires '.' !in prefix && '.' !in ext
    ensures var r := FileName(prefix, iso, ext);
      r[|r| - |ext| - 1] == '.' &&
      forall i :: 0 <= i < |r| && i != |r| - |ext| - 1 ==> r[i] != '.'
  {
    var t := ReplaceSeparators(iso);
    ReplaceSeparatorsIdempotent(iso);
    var a := prefix + "-" + t;
    assert '.' !in a;
    var r := a + "." + ext;
    assert FileName(prefix, iso, ext) == r;
    forall i | 0 <= i < |r| && i != |r| - |ext| - 1 ensures r[i] != '.' {
      if i < |a| {
        assert r[i] == a[i];
      } else {
        assert r[i] == ext[i - |a| - 1];
      }
    }
  }

  // ---------------------------------------------------------------------------
  // Step 1: stable sort by timestamp
  // ---------------------------------------------------------------------------

  /** The sort key of an action: its timestamp as a date value. */
  function Key(a: Action, when: string -> int): int {
    when(a.timestamp)
  }

  ghost predicate SortedByTime(s: seq<Action>, when: string -> int) {
    forall i, j :: 0 <= i < j < |s| ==> Key(s[i], when) <= Key(s[j], when)
  }

  /** Insert `x` behind every entry of `s` whose time is not later than its own. */
  function Insert(s: seq<Action>, x: Action, when: string -> int): (r: seq<Action>)
    ensures |r| == |s| + 1
  {
    if s == [] || Key(s[|s| - 1], when) <= Key(x, when) then s + [x]
    else Insert(s[..|s| - 1], x, when) + [s[|s| - 1]]
  }

  /** Insertion sort from the left: the reference definition of the stable sort. */
  function SortByTime(s: seq<Action>, when: string -> int): (r: seq<Action>)
    ensures |r| == |s|
  {
    if s == [] then [] else Insert(SortByTime(s[..|s| - 1], when), s[|s| - 1], when)
  }

  /** The entries of `s` whose time is exactly `k`, in their order in `s`. */
  function AtTime(s: seq<Action>, k: int, when: string -> int): seq<Action> {
    if s == [] then []
    else AtTime(s[..|s| - 1], k, when) + (if Key(s[|s| - 1], when) == k then [s[|s| - 1]] else [])
  }

  lemma {:induction false} InsertPermutes(s: seq<Action>, x: Action, when: string -> int)
    ensures multiset(Insert(s, x, when)) == multiset(s) + multiset{x}
  {
    if s != [] && Key(s[|s| - 1], when) > Key(x, when) {
      InsertPermutes(s[..|s| - 1], x, when);
      assert s == s[..|s| - 1] + [s[|s| - 1]];
    }
  }

  lemma {:induction false} InsertKeepsSorted(s: seq<Action>, x: Action, when: string -> int)
    requires SortedByTime(s, when)
    ensures SortedByTime(Insert(s, x, when), when)
  {
    if s != [] && Key(s[|s| - 1], when) > Key(x, when) {
      var p, last := s[..|s| - 1], s[|s| - 1];
      InsertKeepsSorted(p, x, when);
      InsertPermutes(p, x, when);
      var q := Insert(p, x, when);
      forall i | 0 <= i < |q| ensures Key(q[i], when) <= Key(last, when) {
        assert q[i] in multiset(q);
        assert q[i] in multiset(p) || q[i] == x;
        if q[i] != x {
          var j :| 0 <= j < |p| && p[j] == q[i];
          assert s[j] == p[j];
        }
      }
    }
  }

  /** Inserting into a sorted list adds `x` behind every entry of its own time. */
  lemma {:induction false} InsertAtTime(s: seq<Action>, x: Action, k: int, when: string -> int)
    requires SortedByTime(s, when)
    ensures AtTime(Insert(s, x, when), k, when) == AtTime(s, k, when) + (if Key(x, when) == k then [x] else [])
  {
    if s == [] || Key(s[|s| - 1], when) <= Key(x, when) {
      assert (s + [x])[..|s|] == s;
    } else {
      var p, last := s[..|s| - 1], s[|s| - 1];
      InsertAtTime(p, x, k, when);
      var q := Insert(p, x, when);
      assert (q + [last])[..|q|] == q;
    }
  }

  /** The sort orders by time, keeps every entry, and keeps equal times in input order. */
  lemma {:induction false} SortByTimeIsStableSort(s: seq<Action>, when: string -> int)
    ensures SortedByTime(SortByTime(s, when), when)
    ensures multiset(SortByTime(s, when)) == multiset(s)
    ensures forall k :: AtTime(SortByTime(s, when), k, when) == AtTime(s, k, when)
  {
    if s != [] {
      var p, last := s[..|s| - 1], s[|s| - 1];
      SortByTimeIsStableSort(p, when);
      InsertKeepsSorted(SortByTime(p, when), last, when);
      InsertPermutes(SortByTime(p, when), last, when);
      assert s == p + [last];
      forall k ensures AtTime(SortByTime(s, when), k, when) == AtTime(s, k, when) {
        InsertAtTime(SortByTime(p, when), last, k, when);
      }
    }
  }

  /** A list holding `sorted` with `x` placed at index `j` starts with that insertion. */
  lemma Placed(b: seq<Action>, sorted: seq<Action>, j: int, x: Action)
    requires 0 <= j <= |sorted| < |b|
    requires forall k :: 0 <= k < j ==> b[k] == sorted[k]
    requires b[j] == x
    requires forall k :: j < k <= |sorted| ==> b[k] == sorted[k - 1]
    ensures b[..|sorted| + 1] == sorted[..j] + [x] + sorted[j..]
  {
  }

  /**
    * Inserting `x` lands it right after the entries up to `j` when those
    * from `j` on are all later than `x` and the one before `j` is not.
    */
  lemma {:induction false} InsertSplit(sorted: seq<Action>, j: int, x: Action, when: string -> int)
    requires 0 <= j <= |sorted|
    requires j == 0 || Key(sorted[j - 1], when) <= Key(x, when)
    requires forall k :: j <= k < |sorted| ==> Key(sorted[k], when) > Key(x, when)
    ensures Insert(sorted, x, when) == sorted[..j] + [x] + sorted[j..]
  {
    var n := |sorted|;
    if j < n {
      var init, last := sorted[..n - 1], sorted[n - 1];
      assert Insert(sorted, x, when) == Insert(init, x, when) + [last] by {
        assert Key(last, when) > Key(x, when);
      }
      assert init[..j] == sorted[..j];
      assert forall k :: j <= k < |init| ==> init[k] == sorted[k];
      InsertSplit(init, j, x, when);
      assert sorted[j..] == init[j..] + [last];
      AppendAssoc(sorted[..j] + [x], init[j..], [last]);
    } else {
      assert sorted[..j] == sorted && sorted[j..] == [];
    }
  }

  /**
    * The inner loop of one insertion pass: shift the entries before `i` that
    * are later than `x` one place right, and return the gap left behind.
    */
  method ShiftLater(a: array<Action>, i: int, x: Action, when: string -> int) returns (j: int)
    requires 0 <= i < a.Length
    modifies a
    ensures 0 <= j <= i
    ensures forall k :: 0 <= k < j ==> a[k] == old(a[k])
    ensures forall k :: j < k <= i ==> a[k] == old(a[k - 1])
    ensures forall k :: i < k < a.Length ==> a[k] == old(a[k])
    ensures forall k :: j <= k < i ==> Key(old(a[k]), when) > Key(x, when)
    ensures j == 0 || Key(old(a[j - 1]), when) <= Key(x, when)
  {
    ghost var orig := a[..];
    j := i;
    while j > 0 && Key(a[j - 1], when) > Key(x, when)
      invariant 0 <= j <= i
      invariant forall k :: 0 <= k < j ==> a[k] == orig[k]
      invariant forall k :: j < k <= i ==> a[k] == orig[k - 1]
      invariant forall k :: i < k < a.Length ==> a[k] == orig[k]
      invariant forall k :: j <= k < i ==> Key(orig[k], when) > Key(x, when)
    {
      var moved := a[j - 1];
      assert moved == orig[j - 1];
      a[j] := moved;
      j := j - 1;
    }
  }

  /** One pass of the insertion sort: move `a[i]` left past every later-timed entry. */
  method InsertAt(a: array<Action>, i: int, when: string -> int)
    requires 0 <= i < a.Length
    modifies a
    ensures a[..i + 1] == Insert(old(a[..i]), old(a[i]), when)
    ensures a[i + 1..] == old(a[i + 1..])
  {
    var x := a[i];
    ghost var sorted := a[..i];
    var j := ShiftLater(a, i, x, when);
    a[j] := x;
    InsertSplit(sorted, j, x, when);
    Placed(a[..], sorted, j, x);
  }

  /** `rawData.sort(...)`: insertion sort of the array in place. */
  method SortInPlace(a: array<Action>, when: string -> int)
    modifies a
    ensures a[..] == SortByTime(old(a[..]), when)
  {
    ghost var orig := a[..];
    var i := 0;
    while i < a.Length
      invariant 0 <= i <= a.Length
      invariant a[..i] == SortByTime(orig[..i], when)
      invariant a[i..] == orig[i..]
    {
      assert orig[..i + 1][..i] == orig[..i];
      InsertAt(a, i, when);
      i := i + 1;
    }
    assert orig[..a.Length] == orig;
  }

  // ---------------------------------------------------------------------------
  // Step 2: one-step-lookback merge
  // ---------------------------------------------------------------------------

  /** The last retained entry is an input on the element `curr` targets, and `curr` has type `kind`. */
  predicate Extends(acc: seq<Action>, curr: Action, kind: string) {
    acc != [] && acc[|acc| - 1].kind == "input" && curr.kind == kind
    && acc[|acc| - 1].target.id == curr.target.id
  }

  /** One step of the `reduce` callback. */
  function Step(acc: seq<Action>, curr: Action): seq<Action> {
    if Extends(acc, curr, "input") then acc[..|acc| - 1] + [acc[|acc| - 1].(value := curr.value)]
    else if Extends(acc, curr, "change") then acc[..|acc| - 1] + [acc[|acc| - 1].(isConfirmed := Some(true))]
    else acc + [curr.(isConfirmed := Some(false))]
  }

  /**
    * A step either appends the event as an unconfirmed copy, or keeps the
    * length and leaves every entry but the last as it was.
    */
  lemma StepChangesOnlyLast(acc: seq<Action>, curr: Action)
    ensures var r := Step(acc, curr);
      || r == acc + [curr.(isConfirmed := Some(false))]
      || (acc != [] && |r| == |acc| && r[..|acc| - 1] == acc[..|acc| - 1])
  {
  }

  /** The left fold of `Step` over the (already sorted) actions, starting from `[]`. */
  function Merge(s: seq<Action>): (r: seq<Action>)
    ensures |r| <= |s|
  {
    if s == [] then [] else Step(Merge(s[..|s| - 1]), s[|s| - 1])
  }

  /** The merge never grows the list, and it is empty exactly when its input is. */
  lemma {:induction false} MergeSize(s: seq<Action>)
    ensures |Merge(s)| <= |s|
    ensures Merge(s) == [] <==> s == []
  {
    if s != [] {
      MergeSize(s[..|s| - 1]);
    }
  }

  /** An input on the same element as a retained input overwrites its value and adds nothing. */
  lemma MergeInputOverwrites(s: seq<Action>, e: Action)
    requires Extends(Merge(s), e, "input")
    ensures var m := Merge(s);
      Merge(s + [e]) == m[..|m| - 1] + [m[|m| - 1].(value := e.value)]
  {
    assert (s + [e])[..|s|] == s;
  }

  /** A change on the same element as a retained input confirms it and adds nothing. */
  lemma MergeChangeConfirms(s: seq<Action>, e: Action)
    requires Extends(Merge(s), e, "change")
    ensures var m := Merge(s);
      Merge(s + [e]) == m[..|m| - 1] + [m[|m| - 1].(isConfirmed := Some(true))]
  {
    assert (s + [e])[..|s|] == s;
  }

  /** Any other event is appended as an unconfirmed copy; earlier entries are never consulted. */
  lemma MergeAppends(s: seq<Action>, e: Action)
    requires !Extends(Merge(s), e, "input") && !Extends(Merge(s), e, "change")
    ensures Merge(s + [e]) == Merge(s) + [e.(isConfirmed := Some(false))]
  {
    assert (s + [e])[..|s|] == s;
  }

  /** The previous entry would absorb the next one. */
  predicate Absorbs(prev: Action, next: Action) {
    prev.kind == "input" && (next.kind == "input" || next.kind == "change")
    && prev.target.id == next.target.id
  }

  /** What every merge result satisfies: confirmation is set, only inputs carry it, nothing is left to merge. */
  ghost predicate FullyMerged(out: seq<Action>) {
    && (forall k :: 0 <= k < |out| ==> out[k].isConfirmed.Some?)
    && (forall k :: 0 <= k < |out| && out[k].kind != "input" ==> out[k].isConfirmed == Some(false))
    && (forall k :: 0 < k < |out| ==> !Absorbs(out[k - 1], out[k]))
  }

  /** Rewriting the last entry without changing its type or target keeps a merged list merged. */
  lemma ReplaceLastKeepsMerged(m: seq<Action>, x: Action)
    requires FullyMerged(m) && m != []
    requires x.kind == m[|m| - 1].kind && x.target == m[|m| - 1].target && x.isConfirmed.Some?
    requires x.kind != "input" ==> x.isConfirmed == Some(false)
    ensures FullyMerged(m[..|m| - 1] + [x])
  {
    var r := m[..|m| - 1] + [x];
    forall k | 0 <= k < |r| - 1 ensures r[k] == m[k] { }
  }

  /** Appending an unconfirmed entry that the last one would not absorb keeps a merged list merged. */
  lemma AppendKeepsMerged(m: seq<Action>, x: Action)
    requires FullyMerged(m) && x.isConfirmed == Some(false)
    requires m != [] ==> !Absorbs(m[|m| - 1], x)
    ensures FullyMerged(m + [x])
  {
    var r := m + [x];
    forall k | 0 <= k < |m| ensures r[k] == m[k] { }
  }

  /** One `reduce` step keeps a merged list merged. */
  lemma StepKeepsMerged(m: seq<Action>, e: Action)
    requires FullyMerged(m)
    ensures FullyMerged(Step(m, e))
  {
    if Extends(m, e, "input") {
      ReplaceLastKeepsMerged(m, m[|m| - 1].(value := e.value));
    } else if Extends(m, e, "change") {
      ReplaceLastKeepsMerged(m, m[|m| - 1].(isConfirmed := Some(true)));
    } else {
      AppendKeepsMerged(m, e.(isConfirmed := Some(false)));
    }
  }

  lemma {:induction false} MergeIsFullyMerged(s: seq<Action>)
    ensures FullyMerged(Merge(s))
  {
    if s != [] {
      MergeIsFullyMerged(s[..|s| - 1]);
      StepKeepsMerged(Merge(s[..|s| - 1]), s[|s| - 1]);
    }
  }

  /** Indices of the input events that opened a retained entry. */
  ghost function Origins(s: seq<Action>): seq<nat> {
    if s == [] then []
    else
      var p, e := s[..|s| - 1], s[|s| - 1];
      if Extends(Merge(p), e, "input") || Extends(Merge(p), e, "change") then Origins(p)
      else Origins(p) + [|s| - 1]
  }

  /** The same event up to the two fields the merge rewrites. */
  predicate SameEvent(entry: Action, source: Action) {
    entry.(value := source.value, isConfirmed := source.isConfirmed) == source
  }

  /**
    * Every retained entry comes from its own input event, in input order: the
    * output is the subsequence of events at `Origins(s)`, up to `value` and
    * `isConfirmed`.
    */
  lemma {:induction false} MergeKeepsOrder(s: seq<Action>)
    ensures |Origins(s)| == |Merge(s)|
    ensures forall k :: 0 <= k < |Origins(s)| ==>
      Origins(s)[k] < |s| && SameEvent(Merge(s)[k], s[Origins(s)[k]])
    ensures forall k, l :: 0 <= k < l < |Origins(s)| ==> Origins(s)[k] < Origins(s)[l]
  {
    if s != [] {
      var p, e := s[..|s| - 1], s[|s| - 1];
      MergeKeepsOrder(p);
      var m, o := Merge(p), Origins(p);
      forall k | 0 <= k < |o| ensures s[o[k]] == p[o[k]] { }
      if !(Extends(m, e, "input") || Extends(m, e, "change")) {
        assert Merge(s) == m + [e.(isConfirmed := Some(false))];
        assert Origins(s) == o + [|s| - 1];
      }
    }
  }

  /** The `reduce` callback of `processEvents`, as it branches on the last retained entry. */
  method ReduceStep(acc: seq<Action>, curr: Action) returns (next: seq<Action>)
    ensures next == Step(acc, curr)
  {
    if |acc| > 0 && acc[|acc| - 1].kind == "input" && curr.kind == "input"
      && acc[|acc| - 1].target.id == curr.target.id
    {
      next := acc[..|acc| - 1] + [acc[|acc| - 1].(value := curr.value)];
    } else if |acc| > 0 && acc[|acc| - 1].kind == "input" && curr.kind == "change"
      && acc[|acc| - 1].target.id == curr.target.id
    {
      next := acc[..|acc| - 1] + [acc[|acc| - 1].(isConfirmed := Some(true))];
    } else {
      next := acc + [curr.(isConfirmed := Some(false))];
    }
  }

  /** `processEvents`: sort `rawData` in place, then fold the merge over it. */
  method ProcessEvents(rawData: array<Action>, when: string -> int) returns (processed: seq<Action>)
    modifies rawData
    ensures rawData[..] == SortByTime(old(rawData[..]), when)
    ensures processed == Merge(rawData[..])
  {
    SortInPlace(rawData, when);
    ghost var sorted := rawData[..];
    var acc: seq<Action> := [];
    var i := 0;
    while i < rawData.Length
      invariant 0 <= i <= rawData.Length && rawData[..] == sorted
      invariant acc == Merge(rawData[..i])
    {
      assert rawData[..i + 1][..i] == rawData[..i];
      acc := ReduceStep(acc, rawData[i]);
      i := i + 1;
    }
    assert rawData[..rawData.Length] == rawData[..];
    processed := acc;
  }

  // ---------------------------------------------------------------------------
  // Step 3: descriptions
  // ---------------------------------------------------------------------------

  const CONFIRMED := "完成输入"
  const TYPING := "正在输入"
  const SWITCH_TO := "点击切换到「"
  const UNRECOGNIZED := "未识别操作类型："

  /** `timestamp.split(' ')[1]`, which renders as `undefined` when there is no space. */
  function TimeToken(timestamp: string): string {
    var parts := Split(timestamp, ' ');
    if |parts| >= 2 then parts[1] else "undefined"
  }

  /**
    * The time token is the text between the first and the second space (or
    * the end), and `undefined` when the timestamp has no space at all.
    */
  lemma TimeTokenSecondWord(timestamp: string)
    ensures ' ' !in timestamp ==> TimeToken(timestamp) == "undefined"
    ensures ' ' in timestamp ==>
      IndexOf(timestamp, ' ') < |timestamp| &&
      var rest := timestamp[IndexOf(timestamp, ' ') + 1..];
      TimeToken(timestamp) == rest[..IndexOf(rest, ' ')] && ' ' !in TimeToken(timestamp)
  {
    if ' ' in timestamp {
      SplitSecond(timestamp, ' ');
      SplitHead(timestamp[IndexOf(timestamp, ' ') + 1..], ' ');
    } else {
      SplitFree(timestamp, ' ');
    }
  }

  /** The `[time] ` head of every line. */
  function Stamp(timestamp: string): string {
    "[" + TimeToken(timestamp) + "] "
  }

  /** `${event.value}`: the value, or `undefined` when absent. */
  function ValueText(v: Option<string>): string {
    if v.Some? then v.value else "undefined"
  }

  /** The label of an anchor: `点击切换到「text」`. */
  function AnchorLabel(text: string): string {
    SWITCH_TO + text + "」"
  }

  /** The label of a click on an element without text: `点击「id」`. */
  function IdLabel(id: string): string {
    "点击「" + id + "」"
  }

  /**
    * The click label: for an anchor the link text, otherwise the trimmed text,
    * and the id only when the trimmed text is blank.
    */
  function ClickLabel(t: Target, trim: string -> string): (r: string)
    ensures t.tagName == "A" ==> StartsWith(r, SWITCH_TO) && r[|SWITCH_TO|..] == trim(t.innerText) + "」"
    ensures t.tagName != "A" && trim(t.innerText) != "" ==> r == trim(t.innerText)
    ensures t.tagName != "A" && trim(t.innerText) == "" ==> r == IdLabel(t.id)
  {
    if t.tagName == "A" then
      var r := AnchorLabel(trim(t.innerText));
      assert r == SWITCH_TO + (trim(t.innerText) + "」");
      PrefixOfConcat(SWITCH_TO, trim(t.innerText) + "」");
      r
    else if trim(t.innerText) != "" then trim(t.innerText)
    else IdLabel(t.id)
  }

  /** The ` (位置 X:x, Y:y)` tail of a click line. */
  function Position(x: int, y: int): string {
    " (位置 X:" + IntToString(x) + ", Y:" + IntToString(y) + ")"
  }

  /** The `「id」值：value` part of an input or change line. */
  function FieldValue(e: Action): string {
    "「" + e.target.id + "」值：" + ValueText(e.value)
  }

  /**
    * The rendering rules of `generateDescriptions` for the text `b` after the
    * `[time] ` head of the line describing `e`.
    */
  predicate RendersAs(b: string, e: Action, trim: string -> string) {
    && ((e.kind == "input" || e.kind == "change") ==>
         && (StartsWith(b, CONFIRMED) <==> e.isConfirmed == Some(true))
         && (StartsWith(b, TYPING) <==> e.isConfirmed != Some(true))
         && b[4..] == FieldValue(e))
    && (e.kind == "click" && e.target.tagName == "A" ==> StartsWith(b, AnchorLabel(trim(e.target.innerText))))
    && (e.kind == "click" && e.target.tagName != "A" && trim(e.target.innerText) != "" ==>
         StartsWith(b, trim(e.target.innerText)))
    && (e.kind == "click" && e.target.tagName != "A" && trim(e.target.innerText) == "" ==>
         StartsWith(b, IdLabel(e.target.id)))
    && (e.kind == "click" ==> EndsWith(b, Position(e.x, e.y)))
    && (e.kind == "click" ==> b == ClickLabel(e.target, trim) + Position(e.x, e.y))
    && (e.kind != "input" && e.kind != "change" && e.kind != "click" ==> b == UNRECOGNIZED + e.kind)
  }

  /** The text after the `[time] ` head, by event type. */
  function LineBody(e: Action, trim: string -> string): (r: string)
    ensures RendersAs(r, e, trim)
  {
    if e.kind == "input" || e.kind == "change" then
      var rest := FieldValue(e);
      if e.isConfirmed == Some(true) then
        PrefixOfConcat(CONFIRMED, rest);
        assert (CONFIRMED + rest)[0] != TYPING[0];
        assert (CONFIRMED + rest)[4..] == rest;
        CONFIRMED + rest
      else
        PrefixOfConcat(TYPING, rest);
        assert (TYPING + rest)[0] != CONFIRMED[0];
        assert (TYPING + rest)[4..] == rest;
        TYPING + rest
    else if e.kind == "click" then
      var desc := ClickLabel(e.target, trim);
      var position := Position(e.x, e.y);
      PrefixOfConcat(desc, position);
      SuffixOfConcat(desc, position);
      desc + position
    else
      UNRECOGNIZED + e.kind
  }

  /** The per-entry line of `generateDescriptions`: the `[time] ` head, then text following the rendering rules. */
  function Describe(e: Action, trim: string -> string): (r: string)
    ensures StartsWith(r, Stamp(e.timestamp)) && RendersAs(r[|Stamp(e.timestamp)|..], e, trim)
    ensures e.kind == "click" ==> EndsWith(r, Position(e.x, e.y))
  {
    var time := Stamp(e.timestamp);
    var body := LineBody(e, trim);
    PrefixOfConcat(time, body);
    assert (time + body)[|time|..] == body;
    if e.kind == "click" then
      SuffixThrough(time, body, Position(e.x, e.y));
      time + body
    else
      time + body
  }

  /** `generateDescriptions`: one line per processed entry, in order. */
  function Descriptions(entries: seq<Action>, trim: string -> string): (r: seq<string>)
    ensures |r| == |entries|
    ensures forall i :: 0 <= i < |entries| ==> r[i] == Describe(entries[i], trim)
  {
    if entries == [] then [] else [Describe(entries[0], trim)] + Descriptions(entries[1..], trim)
  }

  /** Three actions already in strictly increasing time order are left as they are. */
  lemma SortThreeInOrder(e1: Action, e2: Action, e3: Action, when: string -> int)
    requires Key(e1, when) < Key(e2, when) < Key(e3, when)
    ensures SortByTime([e1, e2, e3], when) == [e1, e2, e3]
  {
    var s := [e1, e2, e3];
    assert s[..2] == [e1, e2] && [e1, e2][..1] == [e1] && [e1][..0] == [];
    assert SortByTime([e1], when) == [e1];
    assert SortByTime([e1, e2], when) == [e1, e2];
  }

  /** Two inputs and a change on one field merge into one confirmed entry with the second value. */
  lemma MergeTypeThenConfirm(e1: Action, e2: Action, e3: Action)
    requires e1.kind == "input" && e2.kind == "input" && e3.kind == "change"
    requires e2.target.id == e1.target.id && e3.target.id == e1.target.id
    ensures Merge([e1, e2, e3]) == [e1.(value := e2.value, isConfirmed := Some(true))]
  {
    var u1 := e1.(isConfirmed := Some(false));
    var u2 := u1.(value := e2.value);
    var u3 := u2.(isConfirmed := Some(true));
    assert [e1][..0] == [];
    assert Merge([e1]) == Step([], e1) == [u1];
    assert [e1, e2][..1] == [e1];
    assert Extends([u1], e2, "input");
    assert Merge([e1, e2]) == Step([u1], e2) == [u2];
    assert [e1, e2, e3][..2] == [e1, e2];
    assert !Extends([u2], e3, "input") && Extends([u2], e3, "change");
    assert Merge([e1, e2, e3]) == Step([u2], e3) == [u3];
    assert u3 == e1.(value := e2.value, isConfirmed := Some(true));
  }

  /**
    * Two inputs and then a change on one field, in time order, collapse into a
    * single confirmed line carrying the second value and the first input's time.
    */
  lemma TypeThenConfirmExample(e1: Action, e2: Action, e3: Action, when: string -> int, trim: string -> string)
    requires e1.kind == "input" && e2.kind == "input" && e3.kind == "change"
    requires e2.target.id == e1.target.id && e3.target.id == e1.target.id
    requires Key(e1, when) < Key(e2, when) < Key(e3, when)
    ensures Merge(SortByTime([e1, e2, e3], when)) == [e1.(value := e2.value, isConfirmed := Some(true))]
    ensures Descriptions(Merge(SortByTime([e1, e2, e3], when)), trim) ==
      [Stamp(e1.timestamp) + (CONFIRMED + FieldValue(e1.(value := e2.value)))]
  {
    SortThreeInOrder(e1, e2, e3, when);
    MergeTypeThenConfirm(e1, e2, e3);
    var r := e1.(value := e2.value, isConfirmed := Some(true));
    assert Describe(r, trim) == Stamp(e1.timestamp) + (CONFIRMED + FieldValue(e1.(value := e2.value))) by {
      assert FieldValue(r) == FieldValue(e1.(value := e2.value));
      assert LineBody(r, trim) == CONFIRMED + FieldValue(r);
    }
    assert Descriptions([r], trim) == [Describe(r, trim)];
  }

  // ---------------------------------------------------------------------------
  // Step 4: report layout
  // ---------------------------------------------------------------------------

  const REPORT_HEADER := "=== 操作分析报告 ==="
  const RECORDS_HEADING := "操作记录："
  const REPORT_END := "=== 报告结束 ==="
  const RAW_HEADING := "=== 原始数据 ==="

  /** `formatReport`: six parts joined by newlines, the descriptions joined by newlines in the middle. */
  function FormatReport(descriptions: seq<string>, rawText: string): (r: string)
    ensures r == REPORT_HEADER + "\n" + RECORDS_HEADING + "\n" + Join(descriptions, "\n") + "\n"
      + REPORT_END + "\n" + RAW_HEADING + "\n" + rawText
    ensures StartsWith(r, REPORT_HEADER + "\n" + RECORDS_HEADING + "\n")
    ensures EndsWith(r, "\n" + REPORT_END + "\n" + RAW_HEADING + "\n" + rawText)
  {
    var body := Join(descriptions, "\n");
    var r := Join([REPORT_HEADER, RECORDS_HEADING, body, REPORT_END, RAW_HEADING, rawText], "\n");
    JoinSix(REPORT_HEADER, RECORDS_HEADING, body, REPORT_END, RAW_HEADING, rawText, "\n");
    MiddleOfSix(REPORT_HEADER, RECORDS_HEADING, body, REPORT_END, RAW_HEADING, rawText, "\n");
    Affixes(REPORT_HEADER + "\n" + RECORDS_HEADING + "\n", body, "\n" + REPORT_END + "\n" + RAW_HEADING + "\n" + rawText);
    r
  }

  /**
    * Read line by line, the report is the header, the heading, the lines of
    * every description in turn (one empty line when there is none), the end
    * marker, the raw heading, and the lines of the raw text.
    */
  lemma ReportLines(descriptions: seq<string>, rawText: string)
    ensures Split(FormatReport(descriptions, rawText), '\n') ==
      [REPORT_HEADER, RECORDS_HEADING] + (if descriptions == [] then [""] else SplitAll(descriptions, '\n'))
      + [REPORT_END, RAW_HEADING] + Split(rawText, '\n')
  {
    assert '\n' !in REPORT_HEADER && '\n' !in RECORDS_HEADING;
    assert '\n' !in REPORT_END && '\n' !in RAW_HEADING;
    SplitJoinSix(REPORT_HEADER, RECORDS_HEADING, Join(descriptions, "\n"), REPORT_END, RAW_HEADING, rawText, '\n');
    if descriptions != [] {
      SplitJoin(descriptions, '\n');
    } else {
      SplitFree("", '\n');
    }
  }

  /** With newline-free descriptions, each description is exactly one line of the report. */
  lemma ReportLinesOnePerDescription(descriptions: seq<string>, rawText: string)
    requires FreeOf(descriptions, '\n')
    ensures Split(FormatReport(descriptions, rawText), '\n') ==
      [REPORT_HEADER, RECORDS_HEADING] + (if descriptions == [] then [""] else descriptions)
      + [REPORT_END, RAW_HEADING] + Split(rawText, '\n')
  {
    ReportLines(descriptions, rawText);
    SplitAllFree(descriptions, '\n');
  }

  /** The download report of `handleDownloadActions`; the raw text is taken before the sort. */
  method BuildActionReport(
    rawData: array<Action>,
    when: string -> int,
    trim: string -> string,
    stringify: seq<Action> -> string
  ) returns (report: string)
    modifies rawData
    ensures rawData[..] == SortByTime(old(rawData[..]), when)
    ensures report == FormatReport(Descriptions(Merge(rawData[..]), trim), stringify(old(rawData[..])))
  {
    var rawText := stringify(rawData[..]);
    var processed := ProcessEvents(rawData, when);
    var descriptions := Descriptions(processed, trim);
    report := FormatReport(descriptions, rawText);
  }
}
