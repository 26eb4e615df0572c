/** `snakeToTitleCase`: split on '_', upper-case the first character of each
    segment, join with ' '; and the type-level `SnakeToTitleCase` it is
    declared to agree with. */
module Utils {

  /** Upper-casing of one character; only ASCII letters change. */
  function ToUpper(c: char): (u: char)
    ensures ('a' <= c <= 'z') ==> u as int == c as int - 32
    ensures !('a' <= c <= 'z') ==> u == c
  {
    if 'a' <= c <= 'z' then (c as int - 32) as char else c
  }

  lemma ToUpperFacts(c: char)
    ensures ToUpper(ToUpper(c)) == ToUpper(c)
    ensures ToUpper(c) == '_' <==> c == '_'
    ensures ToUpper(c) == ' ' <==> c == ' '
  {
  }

  /** `word.charAt(0).toUpperCase() + word.slice(1)`; the empty word stays empty. */
  function Capitalize(w: string): (r: string)
    ensures |r| == |w|
    ensures |w| > 0 ==> r[0] == ToUpper(w[0]) && r[1..] == w[1..]
  {
    if w == [] then [] else [ToUpper(w[0])] + w[1..]
  }

  /** `s.split(sep)` for a one-character separator: the maximal runs between
      separators, empty runs included, so there is always at least one. */
  function Split(s: string, sep: char): (parts: seq<string>)
    ensures |parts| >= 1
    decreases |s|
  {
    if s == [] then [[]]
    else
      var rest := Split(s[1..], sep);
      if s[0] == sep then [[]] + rest else [[s[0]] + rest[0]] + rest[1..]
  }

  /** `parts.join(sep)`. */
  function Join(parts: seq<string>, sep: char): string
  {
    if |parts| == 0 then []
    else if |parts| == 1 then parts[0]
    else parts[0] + [sep] + Join(parts[1..], sep)
  }

  function CapitalizeAll(ws: seq<string>): (r: seq<string>)
    ensures |r| == |ws|
    ensures forall i :: 0 <= i < |ws| ==> r[i] == Capitalize(ws[i])
  {
    if ws == [] then [] else [Capitalize(ws[0])] + CapitalizeAll(ws[1..])
  }

  /** The runtime function. */
  function SnakeToTitleCase(s: string): string
  {
    Join(CapitalizeAll(Split(s, '_')), ' ')
  }

  /** The first index of `c` in `s`. */
  function IndexOf(s: string, c: char): (i: nat)
    requires c in s
    ensures i < |s| && s[i] == c && c !in s[..i]
  {
    if s[0] == c then 0 else 1 + IndexOf(s[1..], c)
  }

  /** The type-level `SnakeToTitleCase`: `${First}_${Rest}` infers `First`
      up to the first '_'; with no '_' the whole string is capitalized. */
  function TitleCaseType(s: string): string
    decreases |s|
  {
    if '_' in s then
      var i := IndexOf(s, '_');
      Capitalize(s[..i]) + " " + TitleCaseType(s[i + 1..])
    else Capitalize(s)
  }

  // ---------------------------------------------------------------------
  // Split and Join

  lemma {:induction false} SplitNoSeparator(s: string, sep: char)
    requires sep !in s
    ensures Split(s, sep) == [s]
    decreases |s|
  {
    if s != [] {
      SplitNoSeparator(s[1..], sep);
      assert [s[0]] + s[1..] == s;
    }
  }

  lemma {:induction false} SplitAtFirst(a: string, b: string, sep: char)
    requires sep !in a
    ensures Split(a + [sep] + b, sep) == [a] + Split(b, sep)
    decreases |a|
  {
    var s := a + [sep] + b;
    if a == [] {
      assert s[1..] == b;
    } else {
      assert s[1..] == a[1..] + [sep] + b;
      SplitAtFirst(a[1..], b, sep);
      assert [a[0]] + a[1..] == a;
    }
  }

  /** Joining the parts back with the separator gives the input. */
  lemma {:induction false} JoinSplit(s: string, sep: char)
    ensures Join(Split(s, sep), sep) == s
    decreases |s|
  {
    if sep in s {
      var i := IndexOf(s, sep);
      assert s == s[..i] + [sep] + s[i + 1..];
      SplitAtFirst(s[..i], s[i + 1..], sep);
      JoinSplit(s[i + 1..], sep);
    } else {
      SplitNoSeparator(s, sep);
    }
  }

  /** Splitting a join of separator-free parts gives the parts back. */
  lemma {:induction false} SplitJoin(parts: seq<string>, sep: char)
    requires |parts| >= 1
    requires forall i :: 0 <= i < |parts| ==> sep !in parts[i]
    ensures Split(Join(parts, sep), sep) == parts
    decreases |parts|
  {
    if |parts| == 1 {
      SplitNoSeparator(parts[0], sep);
    } else {
      SplitJoin(parts[1..], sep);
      SplitAtFirst(parts[0], Join(parts[1..], sep), sep);
    }
  }

  // ---------------------------------------------------------------------
  // snakeToTitleCase

  /** The runtime function agrees with the type-level one. */
  lemma {:induction false} MatchesTypeLevel(s: string)
    ensures SnakeToTitleCase(s) == TitleCaseType(s)
    decreases |s|
  {
    if '_' in s {
      var i := IndexOf(s, '_');
      var a, b := s[..i], s[i + 1..];
      assert s == a + ['_'] + b;
      SplitAtFirst(a, b, '_');
      MatchesTypeLevel(b);
      var rest := Split(b, '_');
      assert CapitalizeAll([a] + rest) == [Capitalize(a)] + CapitalizeAll(rest);
    } else {
      SplitNoSeparator(s, '_');
    }
  }

  /** One output character per input character: '_' becomes ' ', a character
      that starts a segment is upper-cased, every other one is kept. */
  predicate TitleCasedAt(s: string, r: string, i: int)
    requires 0 <= i < |s| && |r| == |s|
  {
    r[i] == (if s[i] == '_' then ' '
             else if i == 0 || s[i - 1] == '_' then ToUpper(s[i])
             else s[i])
  }

  lemma {:induction false} TypeLevelPointwise(s: string)
    ensures |TitleCaseType(s)| == |s|
    ensures forall i :: 0 <= i < |s| ==> TitleCasedAt(s, TitleCaseType(s), i)
    decreases |s|
  {
    var r := TitleCaseType(s);
    if '_' in s {
      var i := IndexOf(s, '_');
      var a, b := s[..i], s[i + 1..];
      TypeLevelPointwise(b);
      var rb := TitleCaseType(b);
      assert r == Capitalize(a) + " " + rb;
      SegmentsAt(s, i, Capitalize(a), b, rb);
    } else {
      forall k | 0 <= k < |s|
        ensures TitleCasedAt(s, r, k)
      {
        NoSeparatorAt(s, k);
      }
    }
  }

  lemma SegmentsAt(s: string, i: nat, ca: string, b: string, rb: string)
    requires i < |s| && s[i] == '_' && '_' !in s[..i] && b == s[i + 1..]
    requires ca == Capitalize(s[..i]) && |rb| == |b|
    requires forall j :: 0 <= j < |b| ==> TitleCasedAt(b, rb, j)
    ensures |ca + " " + rb| == |s|
    ensures forall k :: 0 <= k < |s| ==> TitleCasedAt(s, ca + " " + rb, k)
  {
    var r := ca + " " + rb;
    forall k | 0 <= k < |s|
      ensures TitleCasedAt(s, r, k)
    {
      if k < i {
        FirstSegmentAt(s, i, ca, rb, k);
      } else if k > i {
        LaterSegmentAt(s, i, ca, b, rb, k);
      }
    }
  }

  lemma NoSeparatorAt(s: string, k: int)
    requires '_' !in s && 0 <= k < |s|
    ensures TitleCasedAt(s, Capitalize(s), k)
  {
    assert s[k] != '_';
    if k > 0 { assert s[k - 1] != '_'; }
  }

  lemma FirstSegmentAt(s: string, i: nat, ca: string, rb: string, k: int)
    requires i < |s| && s[i] == '_' && '_' !in s[..i]
    requires ca == Capitalize(s[..i]) && |ca| + 1 + |rb| == |s|
    requires 0 <= k < i
    ensures TitleCasedAt(s, ca + " " + rb, k)
  {
    var a := s[..i];
    assert s[k] == a[k] && a[k] != '_';
    if k > 0 { assert s[k - 1] == a[k - 1] && a[k - 1] != '_'; }
    assert (ca + " " + rb)[k] == ca[k];
  }

  lemma LaterSegmentAt(s: string, i: nat, ca: string, b: string, rb: string, k: int)
    requires i < |s| && s[i] == '_' && b == s[i + 1..]
    requires |ca| == i && |rb| == |b|
    requires forall j :: 0 <= j < |b| ==> TitleCasedAt(b, rb, j)
    requires i < k < |s|
    ensures TitleCasedAt(s, ca + " " + rb, k)
  {
    assert s[k] == b[k - i - 1];
    assert TitleCasedAt(b, rb, k - i - 1);
    if k - i - 1 > 0 { assert s[k - 1] == b[k - i - 2]; }
    assert (ca + " " + rb)[k] == rb[k - i - 1];
  }

  /** The output has the input's length, and each character is the input's
      with '_' turned into ' ' and segment starts upper-cased. */
  lemma TitleCasePointwise(s: string)
    ensures |SnakeToTitleCase(s)| == |s|
    ensures forall i :: 0 <= i < |s| ==> TitleCasedAt(s, SnakeToTitleCase(s), i)
  {
    MatchesTypeLevel(s);
    TypeLevelPointwise(s);
  }

  /** Every '_' becomes ' ' and no '_' is left. */
  lemma NoUnderscoreLeft(s: string)
    ensures |SnakeToTitleCase(s)| == |s|
    ensures forall i :: 0 <= i < |s| && s[i] == '_' ==> SnakeToTitleCase(s)[i] == ' '
    ensures '_' !in SnakeToTitleCase(s)
  {
    TitleCasePointwise(s);
    var r := SnakeToTitleCase(s);
    forall i | 0 <= i < |r| ensures r[i] != '_' && (s[i] == '_' ==> r[i] == ' ') {
      assert TitleCasedAt(s, r, i);
      ToUpperFacts(s[i]);
    }
  }

  /** Applying the function twice is the same as applying it once. */
  lemma Idempotent(s: string)
    ensures SnakeToTitleCase(SnakeToTitleCase(s)) == SnakeToTitleCase(s)
  {
    var r := SnakeToTitleCase(s);
    NoUnderscoreLeft(s);
    TitleCasePointwise(s);
    TitleCasePointwise(r);
    var rr := SnakeToTitleCase(r);
    forall i | 0 <= i < |r| ensures rr[i] == r[i] {
      assert TitleCasedAt(r, rr, i);
      if i == 0 {
        assert TitleCasedAt(s, r, 0);
        ToUpperFacts(s[0]);
      }
    }
  }

  /** With no ' ' in the input, the output's ' '-separated words are exactly
      the capitalized '_'-separated segments, so there are as many of them. */
  lemma WordsAreSegments(s: string)
    requires ' ' !in s
    ensures Split(SnakeToTitleCase(s), ' ') == CapitalizeAll(Split(s, '_'))
    ensures |Split(SnakeToTitleCase(s), ' ')| == |Split(s, '_')|
  {
    var parts := CapitalizeAll(Split(s, '_'));
    JoinSplit(s, '_');
    forall i | 0 <= i < |parts| ensures ' ' !in parts[i] {
      var seg := Split(s, '_')[i];
      SegmentInInput(s, '_', i);
      forall k | 0 <= k < |seg| ensures parts[i][k] != ' ' {
        assert seg[k] in s;
        ToUpperFacts(seg[k]);
      }
    }
    SplitJoin(parts, ' ');
  }

  /** Every character of a segment occurs in the input. */
  lemma {:induction false} SegmentInInput(s: string, sep: char, i: int)
    requires 0 <= i < |Split(s, sep)|
    ensures forall c :: c in Split(s, sep)[i] ==> c in s
    decreases |s|
  {
    if s != [] {
      var rest := Split(s[1..], sep);
      if s[0] == sep {
        if i > 0 { SegmentInInput(s[1..], sep, i - 1); }
      } else if i == 0 {
        SegmentInInput(s[1..], sep, 0);
      } else {
        SegmentInInput(s[1..], sep, i);
      }
    }
  }

  /** The example the type-level definition is written for. */
  lemma ResearchPoints()
    ensures SnakeToTitleCase("research_points") == "Research Points"
  {
    ExampleSplit();
    ExampleWords();
    var parts := ["research", "points"];
    assert CapitalizeAll(parts) == ["Research", "Points"];
  }

  /** An empty segment stays empty: a doubled '_' gives two spaces. */
  lemma EmptySegment()
    ensures SnakeToTitleCase("a__b") == "A  B"
  {
    var s := "a__b";
    TitleCasePointwise(s);
    var r := SnakeToTitleCase(s);
    assert TitleCasedAt(s, r, 0) && TitleCasedAt(s, r, 1);
    assert TitleCasedAt(s, r, 2) && TitleCasedAt(s, r, 3);
  }

  lemma ExampleSplit()
    ensures Split("research_points", '_') == ["research", "points"]
  {
    var a, b := "research", "points";
    ExampleParts();
    SplitAtFirst(a, b, '_');
    SplitNoSeparator(b, '_');
  }

  lemma ExampleParts()
    ensures "research_points" == "research" + ['_'] + "points"
    ensures '_' !in "research" && '_' !in "points"
  {
  }

  lemma ExampleWords()
    ensures Capitalize("research") == "Research"
    ensures Capitalize("points") == "Points"
    ensures Join(["Research", "Points"], ' ') == "Research Points"
  {
    CapitalizeResearch();
    CapitalizePoints();
  }

  lemma CapitalizeResearch()
    ensures Capitalize("research") == "Research"
  {
    var a := "research";
    assert a[1..] == "esearch";
    assert ToUpper('r') == 'R';
  }

  lemma CapitalizePoints()
    ensures Capitalize("points") == "Points"
  {
    var b := "points";
    assert b[1..] == "oints";
    assert ToUpper('p') == 'P';
  }
}
