/** The text helpers of backend/modules/catalog/option_collapse.py: _norm, _slug and the sort keys. */
module Normalize {
  import opened Text

  lemma {:induction false} TrimLeftShorter(s: string)
    ensures |TrimLeft(s)| <= |s|
  {
    if s != "" && IsSpace(s[0]) {
      TrimLeftShorter(s[1..]);
    }
  }

  /** re.sub(r"\s+", " ", s) */
  function Collapse(s: string): string
    decreases |s|
  {
    if s == "" then ""
    else if IsSpace(s[0]) then TrimLeftShorter(s[1..]); " " + Collapse(TrimLeft(s[1..]))
    else [s[0]] + Collapse(s[1..])
  }

  function Norm(s: string): string {
    Strip(Collapse(s))
  }

  predicate Alphanumeric(c: char) {
    'a' <= c <= 'z' || '0' <= c <= '9'
  }

  function SkipOthers(s: string): (r: string)
    ensures |r| <= |s|
  {
    if s != "" && !Alphanumeric(s[0]) then SkipOthers(s[1..]) else s
  }

  /** re.sub(r"[^a-z0-9]+", "-", s) */
  function Dashed(s: string): string
    decreases |s|
  {
    if s == "" then ""
    else if Alphanumeric(s[0]) then [s[0]] + Dashed(s[1..])
    else "-" + Dashed(SkipOthers(s[1..]))
  }

  function TrimDashes(s: string): string
    decreases |s|
  {
    if s != "" && s[0] == '-' then TrimDashes(s[1..])
    else if s != "" && s[|s| - 1] == '-' then TrimDashes(s[..|s| - 1])
    else s
  }

  function Slug(s: string): string {
    var t := TrimDashes(Dashed(Lower(Norm(s))));
    if t != "" then t else "x"
  }

  datatype Axis = ByColor | BySize

  datatype SortKey = SortKey(rank: nat, text: string)

  function SizeRank(key: string): nat {
    match key
    case "XS" => 0
    case "S" => 1
    case "M" => 2
    case "L" => 3
    case "XL" => 4
    case "2XL" => 5
    case "XXL" => 5
    case "3XL" => 6
    case "XXXL" => 6
    case "4XL" => 7
    case "5XL" => 8
    case "6XL" => 9
    case _ => 999
  }

  function KeyOf(axis: Axis, title: string): SortKey {
    match axis
    case ByColor => SortKey(0, Lower(title))
    case BySize => SortKey(SizeRank(Upper(Norm(title))), Upper(Norm(title)))
  }

  // ---------------------------------------------------------------- order of keys

  predicate Less(a: string, b: string) {
    b != "" && (a == "" || a[0] < b[0] || (a[0] == b[0] && Less(a[1..], b[1..])))
  }

  lemma {:induction false} LessTransitive(a: string, b: string, c: string)
    requires Less(a, b) && Less(b, c)
    ensures Less(a, c)
  {
    if a != "" && a[0] == b[0] == c[0] {
      LessTransitive(a[1..], b[1..], c[1..]);
    }
  }

  lemma {:induction false} LessTotal(a: string, b: string)
    ensures Less(a, b) || Less(b, a) || a == b
    ensures !(Less(a, b) && Less(b, a)) && !Less(a, a)
  {
    if a != "" {
      LessIrreflexive(a);
    }
    if a != "" && b != "" && a[0] == b[0] {
      LessTotal(a[1..], b[1..]);
      assert a == [a[0]] + a[1..] && b == [b[0]] + b[1..];
    }
  }

  lemma {:induction false} LessIrreflexive(a: string)
    ensures !Less(a, a)
  {
    if a != "" {
      LessIrreflexive(a[1..]);
    }
  }

  predicate KeyLess(k: SortKey, l: SortKey) {
    k.rank < l.rank || (k.rank == l.rank && Less(k.text, l.text))
  }

  lemma KeyLessTransitive(k: SortKey, l: SortKey, m: SortKey)
    requires KeyLess(k, l) && KeyLess(l, m)
    ensures KeyLess(k, m)
  {
    if k.rank == l.rank == m.rank {
      LessTransitive(k.text, l.text, m.text);
    }
  }

  lemma KeyLessTotal(k: SortKey, l: SortKey)
    ensures KeyLess(k, l) || KeyLess(l, k) || k == l
    ensures !(KeyLess(k, l) && KeyLess(l, k)) && !KeyLess(k, k)
  {
    LessTotal(k.text, l.text);
    LessIrreflexive(k.text);
  }

  // ---------------------------------------------------------------- normal form

  /** Words separated by single blanks: no other whitespace, none doubled, none at either end. */
  predicate Tidy(s: string) {
    && (forall i :: 0 <= i < |s| && IsSpace(s[i]) ==> s[i] == ' ')
    && (forall i :: 0 <= i && i + 1 < |s| ==> !(IsSpace(s[i]) && IsSpace(s[i + 1])))
  }

  predicate Normal(s: string) {
    Tidy(s) && (s != "" ==> !IsSpace(s[0]) && !IsSpace(s[|s| - 1]))
  }

  lemma {:induction false} TrimLeftHead(s: string)
    ensures TrimLeft(s) != "" ==> !IsSpace(TrimLeft(s)[0])
  {
    if s != "" && IsSpace(s[0]) {
      TrimLeftHead(s[1..]);
    }
  }

  lemma {:induction false} CollapseTidy(s: string)
    ensures Tidy(Collapse(s))
    ensures s != "" && !IsSpace(s[0]) ==> Collapse(s) != "" && Collapse(s)[0] == s[0]
    decreases |s|
  {
    if s != "" {
      if IsSpace(s[0]) {
        TrimLeftShorter(s[1..]);
        TrimLeftHead(s[1..]);
        CollapseTidy(TrimLeft(s[1..]));
      } else {
        CollapseTidy(s[1..]);
      }
    }
  }

  lemma {:induction false} StripNormal(s: string)
    requires Tidy(s)
    ensures Normal(Strip(s))
  {
    TrimLeftTidy(s);
    TrimRightNormal(TrimLeft(s));
  }

  lemma {:induction false} TrimLeftTidy(s: string)
    requires Tidy(s)
    ensures Tidy(TrimLeft(s)) && (TrimLeft(s) != "" ==> !IsSpace(TrimLeft(s)[0]))
  {
    if s != "" && IsSpace(s[0]) {
      assert forall i :: 0 <= i < |s| - 1 ==> s[1..][i] == s[i + 1];
      TrimLeftTidy(s[1..]);
    }
  }

  lemma {:induction false} TrimRightNormal(s: string)
    requires Tidy(s) && (s != "" ==> !IsSpace(s[0]))
    ensures Normal(TrimRight(s))
  {
    if s != "" && IsSpace(s[|s| - 1]) {
      TrimRightNormal(s[..|s| - 1]);
    }
  }

  lemma {:induction false} CollapseOfTidy(s: string)
    requires Tidy(s)
    ensures Collapse(s) == s
    decreases |s|
  {
    if s != "" {
      assert forall i :: 0 <= i < |s| - 1 ==> s[1..][i] == s[i + 1];
      if IsSpace(s[0]) {
        assert s[1..] != "" ==> !IsSpace(s[0 + 1]);
        assert TrimLeft(s[1..]) == s[1..];
      }
      CollapseOfTidy(s[1..]);
      assert s == [s[0]] + s[1..];
    }
  }

  lemma NormIsNormal(s: string)
    ensures Normal(Norm(s))
  {
    CollapseTidy(s);
    StripNormal(Collapse(s));
  }

  /** Normalising is idempotent. */
  lemma NormIdempotent(s: string)
    ensures Norm(Norm(s)) == Norm(s)
  {
    NormIsNormal(s);
    CollapseOfTidy(Norm(s));
  }

  lemma NormOfNormal(s: string)
    requires Normal(s)
    ensures Norm(s) == s
  {
    CollapseOfTidy(s);
  }

  /** The attribute key and the sort key do not depend on the letter case of a normalised title. */
  lemma CaseInsensitiveKeys(a: string, b: string, axis: Axis)
    requires Normal(a) && Normal(b) && Lower(a) == Lower(b)
    ensures Slug(a) == Slug(b)
    ensures KeyOf(axis, a) == KeyOf(axis, b)
  {
    NormOfNormal(a);
    NormOfNormal(b);
    LowerUpper(a, b);
  }

  /** Different titles, up to case, have different sort keys. */
  lemma KeysSeparate(a: string, b: string, axis: Axis)
    requires Normal(a) && Normal(b) && KeyOf(axis, a) == KeyOf(axis, b)
    ensures Lower(a) == Lower(b)
  {
    NormOfNormal(a);
    NormOfNormal(b);
    LowerUpper(a, b);
  }

  // ---------------------------------------------------------------- what a normal form and a slug are

  /** The maximal runs of characters that are kept. */
  function Words(s: string, keep: char -> bool): (words: seq<string>)
    ensures s != "" && keep(s[0]) ==> words != []
  {
    if s == "" then []
    else if !keep(s[0]) then Words(s[1..], keep)
    else if |s| == 1 || !keep(s[1]) then [[s[0]]] + Words(s[1..], keep)
    else
      var rest := Words(s[1..], keep);
      [[s[0]] + rest[0]] + rest[1..]
  }

  function Joined(words: seq<string>, glue: char): string {
    if words == [] then "" else if |words| == 1 then words[0] else words[0] + [glue] + Joined(words[1..], glue)
  }

  predicate AllKept(words: seq<string>, keep: char -> bool) {
    forall i :: 0 <= i < |words| ==> words[i] != "" && forall j :: 0 <= j < |words[i]| ==> keep(words[i][j])
  }

  lemma {:induction false} WordsKept(s: string, keep: char -> bool)
    ensures AllKept(Words(s, keep), keep)
  {
    if s != "" {
      WordsKept(s[1..], keep);
    }
  }

  lemma {:induction false} JoinedEnds(words: seq<string>, glue: char, keep: char -> bool)
    requires AllKept(words, keep) && words != []
    ensures var t := Joined(words, glue);
            t != "" && keep(t[0]) && keep(t[|t| - 1])
  {
    if |words| > 1 {
      assert forall i :: 0 <= i < |words| - 1 ==> words[1..][i] == words[i + 1];
      JoinedEnds(words[1..], glue, keep);
    }
  }

  /** One more kept character in front. */
  lemma JoinedCons(c: char, s: string, glue: char, keep: char -> bool)
    requires keep(c)
    ensures var words := Words([c] + s, keep);
            Joined(words, glue)
            == [c] + (if s != "" && !keep(s[0]) && Words(s, keep) != [] then [glue] else "")
               + Joined(Words(s, keep), glue)
  {
    var t := [c] + s;
    assert t[1..] == s;
    if s == "" || !keep(s[0]) {
      assert Words(t, keep) == [[c]] + Words(s, keep);
      assert ([[c]] + Words(s, keep))[1..] == Words(s, keep);
    } else {
      var rest := Words(s, keep);
      assert t[1] == s[0];
      assert Words(t, keep) == [[c] + rest[0]] + rest[1..];
      assert ([[c] + rest[0]] + rest[1..])[1..] == rest[1..];
      if |rest| == 1 {
        assert rest == [rest[0]];
      } else {
        assert Joined(Words(t, keep), glue) == [c] + rest[0] + [glue] + Joined(rest[1..], glue);
      }
    }
  }

  lemma {:induction false} NoWords(s: string, keep: char -> bool)
    requires Words(s, keep) == []
    ensures forall i :: 0 <= i < |s| ==> !keep(s[i])
  {
    if s != "" {
      NoWords(s[1..], keep);
      assert forall i :: 0 < i < |s| ==> s[i] == s[1..][i - 1];
    }
  }

  /** The rest of the text from its first kept character on. */
  function Skip(s: string, keep: char -> bool): (r: string)
    ensures |r| <= |s| && (r != "" ==> keep(r[0]) && r[|r| - 1] == s[|s| - 1])
    ensures Words(r, keep) == Words(s, keep)
  {
    if s != "" && !keep(s[0]) then Skip(s[1..], keep) else s
  }

  /** Every maximal run of characters that are not kept becomes one glue character, as re.sub does. */
  function Squeezed(s: string, keep: char -> bool, glue: char): string
    decreases |s|
  {
    if s == "" then ""
    else if keep(s[0]) then [s[0]] + Squeezed(s[1..], keep, glue)
    else [glue] + Squeezed(Skip(s[1..], keep), keep, glue)
  }

  function Lead(s: string, keep: char -> bool, glue: char): string {
    if s != "" && !keep(s[0]) then [glue] else ""
  }

  function Trail(s: string, keep: char -> bool, glue: char): string {
    if Words(s, keep) != [] && s != "" && !keep(s[|s| - 1]) then [glue] else ""
  }

  /** Glue stands between the words, and at an end where the text has something else than a word. */
  lemma {:induction false} SqueezedIs(s: string, keep: char -> bool, glue: char)
    ensures Squeezed(s, keep, glue) == Lead(s, keep, glue) + Joined(Words(s, keep), glue) + Trail(s, keep, glue)
    decreases |s|
  {
    if s != "" {
      var rest := if keep(s[0]) then s[1..] else Skip(s[1..], keep);
      SqueezedIs(rest, keep, glue);
      if keep(s[0]) { SqueezedKept(s, keep, glue); } else { SqueezedOther(s, keep, glue); }
    }
  }

  lemma SqueezedKept(s: string, keep: char -> bool, glue: char)
    requires s != "" && keep(s[0])
    ensures [s[0]] + (Lead(s[1..], keep, glue) + Joined(Words(s[1..], keep), glue) + Trail(s[1..], keep, glue))
         == Lead(s, keep, glue) + Joined(Words(s, keep), glue) + Trail(s, keep, glue)
  {
    hide Joined;
    var rest := s[1..];
    var j := Joined(Words(rest, keep), glue);
    JoinedCons(s[0], rest, glue, keep);
    assert [s[0]] + rest == s;
    assert rest != "" ==> rest[|rest| - 1] == s[|s| - 1];
    if Words(rest, keep) == [] {
      NoWords(rest, keep);
      NothingJoined(glue);
    }
  }

  lemma NothingJoined(glue: char)
    ensures Joined([], glue) == ""
  {
  }

  lemma SqueezedOther(s: string, keep: char -> bool, glue: char)
    requires s != "" && !keep(s[0])
    ensures var rest := Skip(s[1..], keep);
            [glue] + (Lead(rest, keep, glue) + Joined(Words(rest, keep), glue) + Trail(rest, keep, glue))
            == Lead(s, keep, glue) + Joined(Words(s, keep), glue) + Trail(s, keep, glue)
  {
    hide Joined, Words, Skip;
    var rest := Skip(s[1..], keep);
    SkippedWords(s, keep);
    if rest == "" {
      NothingSplit(keep);
    }
  }

  lemma SkippedWords(s: string, keep: char -> bool)
    requires s != "" && !keep(s[0])
    ensures Words(Skip(s[1..], keep), keep) == Words(s, keep)
  {
  }

  lemma NothingSplit(keep: char -> bool)
    ensures Words("", keep) == []
  {
  }

  predicate NotBlank(c: char) {
    c !in BLANKS
  }

  predicate SlugChar(c: char) {
    'a' <= c <= 'z' || '0' <= c <= '9'
  }

  lemma {:induction false} TrimLeftSkips(s: string)
    ensures TrimLeft(s) == Skip(s, NotBlank)
  {
    if s != "" {
      SpacesAreBlanks(s[0]);
      if IsSpace(s[0]) { TrimLeftSkips(s[1..]); }
    }
  }

  lemma {:induction false} CollapseSqueezes(s: string)
    ensures Collapse(s) == Squeezed(s, NotBlank, ' ')
    decreases |s|
  {
    if s != "" {
      SpacesAreBlanks(s[0]);
      if IsSpace(s[0]) {
        TrimLeftShorter(s[1..]);
        TrimLeftSkips(s[1..]);
        CollapseSqueezes(TrimLeft(s[1..]));
      } else {
        CollapseSqueezes(s[1..]);
      }
    }
  }

  lemma {:induction false} OthersSkip(s: string)
    ensures SkipOthers(s) == Skip(s, SlugChar)
  {
    if s != "" && !Alphanumeric(s[0]) {
      OthersSkip(s[1..]);
    }
  }

  lemma {:induction false} DashedSqueezes(s: string)
    ensures Dashed(s) == Squeezed(s, SlugChar, '-')
    decreases |s|
  {
    if s != "" {
      if Alphanumeric(s[0]) {
        DashedSqueezes(s[1..]);
      } else {
        OthersSkip(s[1..]);
        DashedSqueezes(SkipOthers(s[1..]));
      }
    }
  }

  /** The normal form: the words of the text, one blank between them. */
  lemma NormIs(s: string)
    ensures Norm(s) == Joined(Words(s, NotBlank), ' ')
  {
    hide Collapse, Squeezed;
    var words := Words(s, NotBlank);
    CollapseSqueezes(s);
    SqueezedIs(s, NotBlank, ' ');
    WordsKept(s, NotBlank);
    if words != [] { JoinedEnds(words, ' ', NotBlank); }
    var lead, trail := Lead(s, NotBlank, ' '), Trail(s, NotBlank, ' ');
    assert ' ' in BLANKS by { assert BLANKS[0] == ' '; }
    assert AllBlank(lead) && AllBlank(trail);
    StripIs(lead, Joined(words, ' '), trail);
  }

  /** The slug: the runs of letters and digits of the case-folded normal form, one dash between them, or x. */
  lemma SlugIs(s: string)
    ensures var words := Words(Lower(Norm(s)), SlugChar);
            Slug(s) == if words == [] then "x" else Joined(words, '-')
  {
    hide Dashed, Squeezed, Norm, Lower;
    var t := Lower(Norm(s));
    var words := Words(t, SlugChar);
    DashedSqueezes(t);
    SqueezedIs(t, SlugChar, '-');
    WordsKept(t, SlugChar);
    var lead, trail := Lead(t, SlugChar, '-'), Trail(t, SlugChar, '-');
    if words != [] {
      JoinedEnds(words, '-', SlugChar);
    }
    TrimmedIs(lead, Joined(words, '-'), trail);
  }

  lemma TrimmedIs(lead: string, s: string, trail: string)
    requires (lead == "" || lead == "-") && (trail == "" || trail == "-") && (s == "" ==> trail == "")
    requires s != "" ==> s[0] != '-' && s[|s| - 1] != '-'
    ensures TrimDashes(lead + s + trail) == s
  {
    var t := s + trail;
    assert lead + s + trail == lead + t;
    if lead == "-" {
      assert (lead + t)[1..] == t;
    } else {
      assert lead + t == t;
    }
    if trail == "-" {
      assert t[..|t| - 1] == s && t[0] != '-';
    } else {
      assert t == s;
    }
    assert TrimDashes(s) == s;
    assert TrimDashes(t) == s;
  }

  // ---------------------------------------------------------------- the order of sizes

  const SIZE_CHART: seq<seq<string>> :=
    [["XS"], ["S"], ["M"], ["L"], ["XL"], ["2XL", "XXL"], ["3XL", "XXXL"], ["4XL"], ["5XL"], ["6XL"]]

  /** The title is, in whatever letter case, on the n-th row of the chart. */
  ghost predicate Stands(title: string, n: nat) {
    n < |SIZE_CHART| && exists i :: 0 <= i < |SIZE_CHART[n]| && SameText(title, SIZE_CHART[n][i])
  }

  lemma ChartText(title: string)
    requires forall i :: 0 <= i < |title| ==> !('a' <= title[i] <= 'z')
    ensures Upper(title) == title
  {
    assert forall i :: 0 <= i < |title| ==> Upper(title)[i] == title[i];
  }

  lemma UpperText(title: string)
    ensures SameText(title, Upper(title))
  {
  }

  /** The chart's own titles, by row. */
  lemma ChartRank(n: nat, i: nat)
    requires n < |SIZE_CHART| && i < |SIZE_CHART[n]|
    ensures Upper(SIZE_CHART[n][i]) == SIZE_CHART[n][i] && SizeRank(SIZE_CHART[n][i]) == n
  {
    ChartText(SIZE_CHART[n][i]);
  }

  /** The rank of a normalised title is its row in the chart; off the chart it is past the last row. */
  lemma RankIsRow(title: string)
    requires Normal(title)
    ensures forall n: nat :: Stands(title, n) <==> n < |SIZE_CHART| && KeyOf(BySize, title).rank == n
  {
    hide SizeRank, Upper, SameText;
    NormOfNormal(title);
    var upper := Upper(title);
    forall n: nat ensures Stands(title, n) <==> n < |SIZE_CHART| && SizeRank(upper) == n {
      if Stands(title, n) {
        var i :| 0 <= i < |SIZE_CHART[n]| && SameText(title, SIZE_CHART[n][i]);
        UpperAgrees(title, SIZE_CHART[n][i]);
        ChartRank(n, i);
      } else if n < |SIZE_CHART| && SizeRank(upper) == n {
        RankedTitle(upper, n);
        UpperText(title);
      }
    }
  }

  lemma RankedTitle(upper: string, n: nat)
    requires n < |SIZE_CHART| && SizeRank(upper) == n
    ensures exists i :: 0 <= i < |SIZE_CHART[n]| && upper == SIZE_CHART[n][i]
  {
    assert SIZE_CHART[n][0] == upper || (|SIZE_CHART[n]| > 1 && SIZE_CHART[n][1] == upper);
  }

  /** Two normalised titles in the order of their keys stand in the order of the chart, and then of their upper case. */
  lemma KeysFollowChart(a: string, b: string)
    requires Normal(a) && Normal(b) && KeyLess(KeyOf(BySize, a), KeyOf(BySize, b))
    ensures forall m: nat, n: nat :: Stands(a, m) && Stands(b, n) ==> m <= n
    ensures (exists n: nat :: Stands(b, n)) ==> exists n: nat :: Stands(a, n)
    ensures (forall n: nat :: Stands(a, n) <==> Stands(b, n)) ==> Less(Upper(a), Upper(b))
  {
    hide SizeRank, Upper, Less, Stands;
    RankIsRow(a);
    RankIsRow(b);
    NormOfNormal(a);
    NormOfNormal(b);
    RankBound(Upper(a));
    RankBound(Upper(b));
    var i, j := KeyOf(BySize, a).rank, KeyOf(BySize, b).rank;
    assert i < |SIZE_CHART| ==> Stands(a, i);
    assert j < |SIZE_CHART| ==> Stands(b, j);
  }

  lemma RankBound(upper: string)
    ensures SizeRank(upper) < |SIZE_CHART| || SizeRank(upper) == 999
  {
  }

  /** Less is the order of strings: at the first difference the smaller character, or the end, comes first. */
  lemma {:induction false} LessIs(a: string, b: string)
    ensures Less(a, b) <==> exists n: nat :: Parts(a, b, n)
  {
    if a != "" && b != "" && a[0] == b[0] {
      LessIs(a[1..], b[1..]);
      forall n: nat ensures Parts(a[1..], b[1..], n) <==> Parts(a, b, n + 1) {
        if n < |a| && n + 1 < |b| {
          assert a[..n + 1] == [a[0]] + a[1..][..n] && b[..n + 1] == [b[0]] + b[1..][..n];
          assert a[1..][..n] == a[..n + 1][1..] && b[1..][..n] == b[..n + 1][1..];
        }
      }
      if n: nat :| Parts(a, b, n) {
        assert Parts(a[1..], b[1..], n - 1);
      }
    } else if Less(a, b) {
      assert Parts(a, b, 0);
    }
  }

  predicate Parts(a: string, b: string, n: nat) {
    n <= |a| && n < |b| && a[..n] == b[..n] && (n == |a| || a[n] < b[n])
  }
}
