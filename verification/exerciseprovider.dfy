/**
  The exercise catalogue of exerciseprovider.cpp: `name|group` lines read from a
  resource file become a list of (name, group) entries, trimmed, with
  case-insensitive duplicates dropped. The file is given as its list of lines,
  or None when it cannot be opened.
 */
module ExerciseCatalog {
  import opened Wrappers

  datatype Entry = Entry(name: string, group: string)

  /** `QChar::isSpace`: the separators (Zs, Zl, Zp), tab to carriage return, and U+0085. */
  predicate IsSpace(c: char) {
    c == ' ' || ('\t' <= c <= '\r') || c == '\U{0085}' || c == '\U{00A0}' || c == '\U{1680}'
    || ('\U{2000}' <= c <= '\U{200A}') || c == '\U{2028}' || c == '\U{2029}' || c == '\U{202F}'
    || c == '\U{205F}' || c == '\U{3000}'
  }

  /**
    Among ASCII characters the white space is exactly space, tab, line feed,
    vertical tab, form feed and carriage return; no white space is a letter or
    the `|` separator.
   */
  lemma SpaceClasses(c: char)
    ensures c < '\U{0080}' ==> (IsSpace(c) <==> c in {' ', '\t', '\n', '\U{000B}', '\U{000C}', '\r'})
    ensures IsSpace(c) ==> c != '|' && !('A' <= c <= 'Z') && !('a' <= c <= 'z')
  {
  }

  /** `s` has a character that is not white space. */
  predicate HasText(s: string) {
    exists k :: 0 <= k < |s| && !IsSpace(s[k])
  }

  /** `s` without its leading white space. */
  function TrimStart(s: string): (r: string)
    ensures |r| <= |s| && r == s[|s| - |r|..]
    ensures forall k :: 0 <= k < |s| - |r| ==> IsSpace(s[k])
    ensures r == [] || !IsSpace(r[0])
    decreases |s|
  {
    if |s| > 0 && IsSpace(s[0]) then TrimStart(s[1..]) else s
  }

  /** `s` without its trailing white space. */
  function TrimEnd(s: string): (r: string)
    ensures |r| <= |s| && r == s[..|r|]
    ensures forall k :: |r| <= k < |s| ==> IsSpace(s[k])
    ensures r == [] || !IsSpace(r[|r| - 1])
    decreases |s|
  {
    if |s| > 0 && IsSpace(s[|s| - 1]) then TrimEnd(s[..|s| - 1]) else s
  }

  /** `t` neither starts nor ends with white space. */
  predicate Trimmed(t: string) {
    t == [] || (!IsSpace(t[0]) && !IsSpace(t[|t| - 1]))
  }

  /** `r` is `s` with only white space cut away before position `i` and after `r`. */
  predicate CutsOnlySpace(s: string, r: string, i: int) {
    0 <= i && i + |r| <= |s| && r == s[i..i + |r|]
    && (forall k :: 0 <= k < i ==> IsSpace(s[k]))
    && (forall k :: i + |r| <= k < |s| ==> IsSpace(s[k]))
  }

  /**
    `QString::trimmed`: the text with its leading and trailing white space cut
    away; what is left neither starts nor ends with white space, and `TrimCuts`
    shows that nothing else is cut.
   */
  function Trim(s: string): (r: string)
    ensures |r| <= |s|
    ensures Trimmed(r)
  {
    TrimEnd(TrimStart(s))
  }

  /** Trimming cuts only white space: a run before the kept text and a run after it. */
  lemma TrimCuts(s: string)
    ensures CutsOnlySpace(s, Trim(s), |s| - |TrimStart(s)|)
  {
    var t := TrimStart(s);
    CutBothEnds(s, |s| - |t|, t, TrimEnd(t));
  }

  /** Cutting space before `t == s[i..]` and then after its prefix `r` cuts only space from `s`. */
  lemma CutBothEnds(s: string, i: nat, t: string, r: string)
    requires i <= |s| && t == s[i..] && forall k :: 0 <= k < i ==> IsSpace(s[k])
    requires |r| <= |t| && r == t[..|r|] && forall k :: |r| <= k < |t| ==> IsSpace(t[k])
    ensures CutsOnlySpace(s, r, i)
  {
    forall k | i + |r| <= k < |s|
      ensures IsSpace(s[k])
    {
      assert t[k - i] == s[k];
    }
  }

  /** The number of `|` separators in `s`. */
  function Bars(s: string): nat
    decreases |s|
  {
    if s == [] then 0 else (if s[0] == '|' then 1 else 0) + Bars(s[1..])
  }

  /** `QString::split("|")`, keeping empty parts: one more part than there are separators. */
  function Split(s: string): (parts: seq<string>)
    ensures |parts| == Bars(s) + 1
    ensures forall i :: 0 <= i < |parts| ==> '|' !in parts[i]
    decreases |s|
  {
    if s == [] then [""]
    else
      var rest := Split(s[1..]);
      if s[0] == '|' then [""] + rest else [[s[0]] + rest[0]] + rest[1..]
  }

  /** The parts joined back with `|` between them. */
  function Join(parts: seq<string>): string
    requires |parts| > 0
    decreases |parts|
  {
    if |parts| == 1 then parts[0] else parts[0] + "|" + Join(parts[1..])
  }

  /** Splitting loses nothing: joining the parts with `|` gives the text back. */
  lemma {:induction false} SplitJoin(s: string)
    ensures Join(Split(s)) == s
    decreases |s|
  {
    if s != [] {
      SplitJoin(s[1..]);
      var rest := Split(s[1..]);
      if s[0] == '|' {
        assert s == [s[0]] + s[1..];
      } else if |rest| == 1 {
        assert s == [s[0]] + s[1..];
      } else {
        assert Split(s)[1..] == rest[1..];
        assert s == [s[0]] + s[1..];
      }
    }
  }

  /** Text without a separator is one part. */
  lemma {:induction false} SplitNoBar(y: string)
    requires '|' !in y
    ensures Split(y) == [y]
    decreases |y|
  {
    if y != [] {
      assert y[0] in y;
      assert forall c :: c in y[1..] ==> c in y;
      SplitNoBar(y[1..]);
      assert y == [y[0]] + y[1..];
    }
  }

  /** Text with exactly one separator splits into the text on either side of it. */
  lemma {:induction false} SplitAtBar(x: string, y: string)
    requires '|' !in x && '|' !in y
    ensures Split(x + "|" + y) == [x, y]
    decreases |x|
  {
    if x == [] {
      assert x + "|" + y == "|" + y;
      assert ("|" + y)[1..] == y;
      SplitNoBar(y);
    } else {
      assert x[0] in x;
      assert forall c :: c in x[1..] ==> c in x;
      assert (x + "|" + y)[1..] == x[1..] + "|" + y;
      SplitAtBar(x[1..], y);
      assert [x[0]] + x[1..] == x;
    }
  }

  lemma {:induction false} TrimStartBefore(a: string, c: char, rest: string)
    requires !IsSpace(c)
    ensures TrimStart(a + [c] + rest) == TrimStart(a) + [c] + rest
    decreases |a|
  {
    if a == [] {
      assert a + [c] + rest == [c] + rest;
    } else {
      assert (a + [c] + rest)[1..] == a[1..] + [c] + rest;
      if IsSpace(a[0]) {
        TrimStartBefore(a[1..], c, rest);
      }
    }
  }

  lemma {:induction false} TrimEndAfter(front: string, c: char, b: string)
    requires !IsSpace(c)
    ensures TrimEnd(front + [c] + b) == front + [c] + TrimEnd(b)
    decreases |b|
  {
    if b == [] {
      assert front + [c] + b == front + [c];
    } else {
      var n := |b| - 1;
      assert (front + [c] + b)[..|front| + 1 + n] == front + [c] + b[..n];
      if IsSpace(b[n]) {
        TrimEndAfter(front, c, b[..n]);
      }
    }
  }

  lemma TrimStartIdempotent(s: string)
    ensures TrimStart(TrimStart(s)) == TrimStart(s)
  {
  }

  lemma TrimEndIdempotent(s: string)
    ensures TrimEnd(TrimEnd(s)) == TrimEnd(s)
  {
  }

  lemma {:induction false} TrimEndCons(c: char, t: string)
    requires !IsSpace(c) || HasText(t)
    ensures TrimEnd([c] + t) == [c] + TrimEnd(t)
    decreases |t|
  {
    if t != [] {
      var n := |t| - 1;
      assert ([c] + t)[..n + 1] == [c] + t[..n];
      if IsSpace(t[n]) {
        if HasText(t) {
          var k :| 0 <= k < |t| && !IsSpace(t[k]);
          assert t[..n][k] == t[k];
        }
        TrimEndCons(c, t[..n]);
      }
    }
  }

  /** Text made of white space only trims to nothing at either end. */
  lemma AllSpaceTrims(s: string)
    requires !HasText(s)
    ensures TrimStart(s) == [] && TrimEnd(s) == []
  {
  }

  /** Trimming the two ends can be done in either order. */
  lemma {:induction false} TrimEndsCommute(s: string)
    ensures TrimStart(TrimEnd(s)) == TrimEnd(TrimStart(s))
    decreases |s|
  {
    if s != [] {
      var rest := s[1..];
      assert s == [s[0]] + rest;
      if !IsSpace(s[0]) {
        TrimEndCons(s[0], rest);
        assert TrimStart(s) == s;
        assert TrimStart([s[0]] + TrimEnd(rest)) == [s[0]] + TrimEnd(rest);
      } else if HasText(rest) {
        TrimEndCons(s[0], rest);
        assert TrimStart(s) == TrimStart(rest);
        assert ([s[0]] + TrimEnd(rest))[1..] == TrimEnd(rest);
        assert TrimStart([s[0]] + TrimEnd(rest)) == TrimStart(TrimEnd(rest));
        TrimEndsCommute(rest);
      } else {
        assert !HasText(s) by {
          forall k | 0 <= k < |s| ensures IsSpace(s[k]) {
            if k > 0 {
              assert rest[k - 1] == s[k];
            }
          }
        }
        AllSpaceTrims(s);
      }
    }
  }

  /** `QString::compare(..., Qt::CaseInsensitive)` folds case; here only ASCII letters are folded. */
  function Fold(c: char): char {
    if 'A' <= c <= 'Z' then (c as int + 32) as char else c
  }

  /** The text with every letter folded. */
  function FoldText(s: string): (r: string)
    ensures |r| == |s|
    decreases |s|
  {
    if s == [] then [] else [Fold(s[0])] + FoldText(s[1..])
  }

  /** The two texts compare equal case-insensitively: their folded forms are equal. */
  predicate SameText(a: string, b: string)
    ensures SameText(a, b) <==> FoldText(a) == FoldText(b)
  {
    FoldedEqual(a, b);
    |a| == |b| && forall i :: 0 <= i < |a| ==> Fold(a[i]) == Fold(b[i])
  }

  lemma {:induction false} FoldedEqual(a: string, b: string)
    ensures FoldText(a) == FoldText(b) <==> |a| == |b| && forall i :: 0 <= i < |a| ==> Fold(a[i]) == Fold(b[i])
    decreases |a|
  {
    if |a| == |b| && |a| > 0 {
      FoldedEqual(a[1..], b[1..]);
      assert FoldText(a) == [Fold(a[0])] + FoldText(a[1..]);
      assert FoldText(b) == [Fold(b[0])] + FoldText(b[1..]);
      if FoldText(a) == FoldText(b) {
        assert FoldText(a[1..]) == FoldText(a)[1..] == FoldText(b)[1..] == FoldText(b[1..]);
        forall i | 0 <= i < |a|
          ensures Fold(a[i]) == Fold(b[i])
        {
          if i > 0 {
            assert a[1..][i - 1] == a[i] && b[1..][i - 1] == b[i];
          } else {
            assert FoldText(a)[0] == FoldText(b)[0];
          }
        }
      }
      if forall i :: 0 <= i < |a| ==> Fold(a[i]) == Fold(b[i]) {
        assert forall i :: 0 <= i < |a| - 1 ==> Fold(a[1..][i]) == Fold(b[1..][i]);
      }
    }
  }

  /** Two entries with the same name and the same group, ignoring case. */
  predicate Same(x: Entry, y: Entry) {
    SameText(x.name, y.name) && SameText(x.group, y.group)
  }

  /** Some entry of `list` is the same as `e`. */
  predicate Listed(list: seq<Entry>, e: Entry) {
    exists i :: 0 <= i < |list| && Same(list[i], e)
  }

  /** No two entries of `list` are the same. */
  predicate Distinct(list: seq<Entry>) {
    forall i, j :: 0 <= i < j < |list| ==> !Same(list[i], list[j])
  }

  /**
    What one line of the file contributes: after trimming, it must split on `|`
    into exactly two parts, and the entry is the two parts, trimmed.
   */
  function Parse(line: string): (r: Option<Entry>)
    ensures r.Some? ==> '|' !in r.value.name && '|' !in r.value.group
    ensures r.Some? ==> Trimmed(r.value.name) && Trimmed(r.value.group)
  {
    var parts := Split(Trim(line));
    if |parts| == 2 then
      TrimAddsNothing(parts[0], '|');
      TrimAddsNothing(parts[1], '|');
      Some(Entry(Trim(parts[0]), Trim(parts[1])))
    else None
  }

  /** Trimming only removes characters. */
  lemma TrimAddsNothing(s: string, c: char)
    requires c !in s
    ensures c !in Trim(s)
  {
    TrimCuts(s);
  }

  lemma {:induction false} BarsAppend(a: string, b: string)
    ensures Bars(a + b) == Bars(a) + Bars(b)
    decreases |a|
  {
    if a != [] {
      assert (a + b)[0] == a[0];
      assert (a + b)[1..] == a[1..] + b;
      BarsAppend(a[1..], b);
    } else {
      assert a + b == b;
    }
  }

  lemma {:induction false} TrimStartKeepsBars(s: string)
    ensures Bars(TrimStart(s)) == Bars(s)
    decreases |s|
  {
    if |s| > 0 && IsSpace(s[0]) {
      TrimStartKeepsBars(s[1..]);
    }
  }

  lemma {:induction false} TrimEndKeepsBars(s: string)
    ensures Bars(TrimEnd(s)) == Bars(s)
    decreases |s|
  {
    if |s| > 0 && IsSpace(s[|s| - 1]) {
      var n := |s| - 1;
      TrimEndKeepsBars(s[..n]);
      assert s == s[..n] + [s[n]];
      BarsAppend(s[..n], [s[n]]);
    }
  }

  /** Trimming removes no separator. */
  lemma TrimKeepsBars(s: string)
    ensures Bars(Trim(s)) == Bars(s)
  {
    TrimStartKeepsBars(s);
    TrimEndKeepsBars(TrimStart(s));
  }

  /** A line gives an entry exactly when it holds exactly one `|`. */
  lemma ParseKeepsOneBarLines(line: string)
    ensures Parse(line).Some? <==> Bars(line) == 1
  {
    TrimKeepsBars(line);
  }

  /** The entry of a line `a|b` is `a` and `b`, trimmed. */
  lemma ParseFields(a: string, b: string)
    requires '|' !in a && '|' !in b
    ensures Parse(a + "|" + b) == Some(Entry(Trim(a), Trim(b)))
  {
    var x := TrimStart(a);
    TrimStartBefore(a, '|', b);
    TrimEndAfter(x, '|', b);
    assert Trim(a + "|" + b) == x + "|" + TrimEnd(b);
    assert '|' !in x by {
      assert forall c :: c in x ==> c in a;
    }
    assert '|' !in TrimEnd(b) by {
      assert forall c :: c in TrimEnd(b) ==> c in b;
    }
    SplitAtBar(x, TrimEnd(b));
    TrimStartIdempotent(a);
    TrimEndsCommute(b);
    TrimEndIdempotent(TrimStart(b));
  }

  /**
    One pass of the loading loop: a new entry is appended unless the same entry
    is already listed. The list keeps what it held, gains at most one entry, and
    stays free of case-insensitive duplicates.
   */
  function Step(list: seq<Entry>, line: string): (r: seq<Entry>)
    ensures |list| <= |r| <= |list| + 1 && r[..|list|] == list
    ensures Distinct(list) ==> Distinct(r)
  {
    match Parse(line)
    case None => list
    case Some(e) =>
      if Listed(list, e) then list
      else
        UnlistedKeepsDistinct(list, e);
        list + [e]
  }

  /** Appending an entry that is not listed keeps the list free of duplicates. */
  lemma UnlistedKeepsDistinct(list: seq<Entry>, e: Entry)
    ensures Distinct(list) && !Listed(list, e) ==> Distinct(list + [e])
  {
    if Distinct(list) && !Listed(list, e) {
      forall i, j | 0 <= i < j < |list| + 1
        ensures !Same((list + [e])[i], (list + [e])[j])
      {
        if j == |list| {
          assert (list + [e])[i] == list[i];
        }
      }
    }
  }

  /**
    The list after the loading loop has read `lines`, starting from `list`: it
    never shrinks, keeps what it held, and gains at most one entry per line.
   */
  function Accept(list: seq<Entry>, lines: seq<string>): (r: seq<Entry>)
    ensures |list| <= |r| <= |list| + |lines|
    ensures r[..|list|] == list
    decreases |lines|
  {
    if lines == [] then list
    else
      var before := Accept(list, lines[..|lines| - 1]);
      assert before[..|list|] == list;
      var r := Step(before, lines[|lines| - 1]);
      assert r[..|before|][..|list|] == r[..|list|];
      r
  }

  /** Reading one more line is one more step of the fold. */
  lemma AcceptNext(list: seq<Entry>, lines: seq<string>, i: nat)
    requires i < |lines|
    ensures Accept(list, lines[..i + 1]) == Step(Accept(list, lines[..i]), lines[i])
  {
    assert lines[..i + 1][..i] == lines[..i];
  }

  /** No two entries are ever the same, ignoring case. */
  lemma {:induction false} AcceptKeepsDistinct(list: seq<Entry>, lines: seq<string>)
    requires Distinct(list)
    ensures Distinct(Accept(list, lines))
    decreases |lines|
  {
    if lines != [] {
      AcceptKeepsDistinct(list, lines[..|lines| - 1]);
    }
  }

  /** The entries of the well-formed lines, in file order, duplicates included. */
  function Candidates(lines: seq<string>): seq<Entry>
    decreases |lines|
  {
    if lines == [] then []
    else
      var front := Candidates(lines[..|lines| - 1]);
      match Parse(lines[|lines| - 1])
      case None => front
      case Some(e) => front + [e]
  }

  /** Each candidate that is not the same as an earlier candidate, in order. */
  function FirstOccurrences(cs: seq<Entry>): seq<Entry>
    decreases |cs|
  {
    if cs == [] then []
    else
      var front := cs[..|cs| - 1];
      var c := cs[|cs| - 1];
      if Listed(front, c) then FirstOccurrences(front) else FirstOccurrences(front) + [c]
  }

  lemma ListedSnoc(list: seq<Entry>, c: Entry, e: Entry)
    ensures Listed(list + [c], e) <==> Listed(list, e) || Same(c, e)
  {
    if Listed(list + [c], e) {
      var i :| 0 <= i < |list| + 1 && Same((list + [c])[i], e);
      if i < |list| {
        assert (list + [c])[i] == list[i];
      }
    }
    if Listed(list, e) {
      var i :| 0 <= i < |list| && Same(list[i], e);
      assert (list + [c])[i] == list[i];
    }
    assert (list + [c])[|list|] == c;
  }

  lemma SameTransitive(x: Entry, y: Entry, z: Entry)
    requires Same(x, y) && Same(y, z)
    ensures Same(x, z)
  {
  }

  /** One step keeps "the accepted entries cover the candidates". */
  lemma StepCovers(a: seq<Entry>, cs: seq<Entry>, c: Entry)
    requires forall e :: Listed(a, e) <==> Listed(cs, e)
    ensures forall e :: Listed(if Listed(a, c) then a else a + [c], e) <==> Listed(cs + [c], e)
  {
    forall e
      ensures Listed(if Listed(a, c) then a else a + [c], e) <==> Listed(cs + [c], e)
    {
      ListedSnoc(cs, c, e);
      ListedSnoc(a, c, e);
      if Listed(a, c) && Same(c, e) {
        var j :| 0 <= j < |a| && Same(a[j], c);
        SameTransitive(a[j], c, e);
      }
    }
  }

  /** What the loop has accepted covers exactly the candidates read so far. */
  lemma {:induction false} AcceptCoversCandidates(lines: seq<string>)
    ensures forall e :: Listed(Accept([], lines), e) <==> Listed(Candidates(lines), e)
    decreases |lines|
  {
    if lines != [] {
      var front := lines[..|lines| - 1];
      AcceptCoversCandidates(front);
      match Parse(lines[|lines| - 1])
      case None =>
      case Some(c) =>
        StepCovers(Accept([], front), Candidates(front), c);
    }
  }

  /**
    From an empty list, the loop keeps the first occurrence of every entry, skips
    every later one that is the same ignoring case, and keeps the file order.
   */
  lemma {:induction false} AcceptKeepsFirstOccurrences(lines: seq<string>)
    ensures Accept([], lines) == FirstOccurrences(Candidates(lines))
    decreases |lines|
  {
    if lines != [] {
      var front := lines[..|lines| - 1];
      AcceptKeepsFirstOccurrences(front);
      AcceptCoversCandidates(front);
      match Parse(lines[|lines| - 1])
      case None =>
      case Some(c) =>
        var cs := Candidates(front);
        assert (cs + [c])[..|cs|] == cs;
    }
  }

  /**
    The first half of the loop body of `loadExercisesFromFile`: trim the line,
    split it on `|`, and when there are exactly two parts, trim each of them.
   */
  method SplitLine(line: string) returns (twoParts: bool, name: string, group: string)
    ensures twoParts <==> Parse(line).Some?
    ensures twoParts ==> Parse(line) == Some(Entry(name, group))
  {
    var trimmed := Trim(line);
    var parts := Split(trimmed);
    twoParts := |parts| == 2;
    if twoParts {
      name := Trim(parts[0]);
      group := Trim(parts[1]);
    } else {
      name, group := "", "";
    }
  }

  /** The exercise catalogue. */
  class ExerciseProvider {
    /** `m_exercises`. */
    var exercises: seq<Entry>

    /** The constructor loads the file into an empty list. */
    constructor (file: Option<seq<string>>)
      ensures file.None? ==> exercises == []
      ensures file.Some? ==> exercises == Accept([], file.value)
    {
      exercises := [];
      new;
      LoadExercisesFromFile(file);
    }

    /**
      `existsExercise`: true exactly when some stored entry has the same name and
      the same group, ignoring case.
     */
    method ExistsExercise(name: string, group: string) returns (found: bool)
      ensures found <==> Listed(exercises, Entry(name, group))
    {
      for i := 0 to |exercises|
        invariant forall j :: 0 <= j < i ==> !Same(exercises[j], Entry(name, group))
      {
        var existing := exercises[i];
        if SameText(existing.name, name) && SameText(existing.group, group) {
          return true;
        }
      }
      return false;
    }

    /**
      `loadExercisesFromFile`: when the file cannot be opened the list stays as it
      is; otherwise every line is passed through the loading step, in order.
     */
    method LoadExercisesFromFile(file: Option<seq<string>>)
      modifies this
      ensures file.None? ==> exercises == old(exercises)
      ensures file.Some? ==> exercises == Accept(old(exercises), file.value)
    {
      if file.None? {
        return;
      }
      var lines := file.value;
      ghost var start := exercises;
      var i := 0;
      while i < |lines|
        invariant 0 <= i <= |lines|
        invariant exercises == Accept(start, lines[..i])
      {
        AcceptNext(start, lines, i);
        ghost var next := Step(exercises, lines[i]);
        var twoParts, name, group := SplitLine(lines[i]);
        if twoParts {
          var duplicate := ExistsExercise(name, group);
          if !duplicate {
            exercises := exercises + [Entry(name, group)];
          }
        }
        assert exercises == next;
        i := i + 1;
      }
      assert lines[..|lines|] == lines;
    }
  }
}
