/** The string operations the program uses, on ASCII text. */
module Text {
  /** Python's str.isspace and the regular expression class \s, on ASCII. */
  predicate IsSpace(c: char) {
    c == ' ' || '\t' <= c <= '\r' || '\U{1C}' <= c <= '\U{1F}'
  }

  function LowerChar(c: char): char {
    if 'A' <= c <= 'Z' then (c as int + 32) as char else c
  }

  function UpperChar(c: char): char {
    if 'a' <= c <= 'z' then (c as int - 32) as char else c
  }

  function Lower(s: string): (r: string)
    ensures |r| == |s|
  {
    seq(|s|, i requires 0 <= i < |s| => LowerChar(s[i]))
  }

  function Upper(s: string): (r: string)
    ensures |r| == |s|
  {
    seq(|s|, i requires 0 <= i < |s| => UpperChar(s[i]))
  }

  function TrimLeft(s: string): string {
    if s != "" && IsSpace(s[0]) then TrimLeft(s[1..]) else s
  }

  function TrimRight(s: string): string {
    if s != "" && IsSpace(s[|s| - 1]) then TrimRight(s[..|s| - 1]) else s
  }

  /** str.strip() */
  function Strip(s: string): string {
    TrimRight(TrimLeft(s))
  }

  /** Two strings fold to the same lower case exactly when they fold to the same upper case. */
  lemma LowerUpper(a: string, b: string)
    ensures Lower(a) == Lower(b) <==> Upper(a) == Upper(b)
  {
    if Lower(a) == Lower(b) {
      forall i | 0 <= i < |a| ensures Upper(a)[i] == Upper(b)[i] {
        assert Lower(a)[i] == Lower(b)[i];
      }
      assert |a| == |Lower(a)| == |b|;
      assert Upper(a) == Upper(b);
    }
    if Upper(a) == Upper(b) {
      forall i | 0 <= i < |a| ensures Lower(a)[i] == Lower(b)[i] {
        assert Upper(a)[i] == Upper(b)[i];
      }
      assert |a| == |Upper(a)| == |b|;
      assert Lower(a) == Lower(b);
    }
  }

  // ---------------------------------------------------------------- what they mean

  /** ASCII whitespace. */
  const BLANKS := " \t\n\U{0B}\U{0C}\r\U{1C}\U{1D}\U{1E}\U{1F}"

  predicate AllBlank(s: string) {
    forall i :: 0 <= i < |s| ==> s[i] in BLANKS
  }

  /** No blank at either end. */
  predicate Bare(s: string) {
    s != "" ==> s[0] !in BLANKS && s[|s| - 1] !in BLANKS
  }

  /** The same letter in whichever case, or the same character. */
  predicate SameLetter(c: char, d: char) {
    || c == d
    || ('A' <= c <= 'Z' && d as int == c as int + 32)
    || ('A' <= d <= 'Z' && c as int == d as int + 32)
  }

  predicate SameText(s: string, t: string) {
    |s| == |t| && forall i :: 0 <= i < |s| ==> SameLetter(s[i], t[i])
  }

  lemma LowerAgrees(s: string, t: string)
    ensures Lower(s) == Lower(t) <==> SameText(s, t)
  {
    if Lower(s) == Lower(t) {
      assert |s| == |Lower(s)| == |t|;
      forall i | 0 <= i < |s| ensures SameLetter(s[i], t[i]) {
        assert Lower(s)[i] == Lower(t)[i];
      }
    }
  }

  lemma UpperAgrees(s: string, t: string)
    ensures Upper(s) == Upper(t) <==> SameText(s, t)
  {
    LowerAgrees(s, t);
    LowerUpper(s, t);
  }

  lemma SpacesAreBlanks(c: char)
    ensures IsSpace(c) <==> c in BLANKS
  {
    assert BLANKS[0] == ' ' && BLANKS[1] == '\t' && BLANKS[2] == '\n' && BLANKS[3] == '\U{0B}'
        && BLANKS[4] == '\U{0C}' && BLANKS[5] == '\r' && BLANKS[6] == '\U{1C}' && BLANKS[7] == '\U{1D}'
        && BLANKS[8] == '\U{1E}' && BLANKS[9] == '\U{1F}';
    if IsSpace(c) {
      if c != ' ' && c <= '\r' {
        assert c == '\t' || c == '\n' || c == '\U{0B}' || c == '\U{0C}' || c == '\r';
      } else if c != ' ' {
        assert c == '\U{1C}' || c == '\U{1D}' || c == '\U{1E}' || c == '\U{1F}';
      }
    }
  }

  lemma {:induction false} TrimLeftIs(u: string, s: string)
    requires AllBlank(u) && (s != "" ==> s[0] !in BLANKS)
    ensures TrimLeft(u + s) == s
  {
    if u == "" {
      assert u + s == s;
      if s != "" { SpacesAreBlanks(s[0]); }
    } else {
      SpacesAreBlanks(u[0]);
      assert (u + s)[1..] == u[1..] + s;
      TrimLeftIs(u[1..], s);
    }
  }

  lemma {:induction false} TrimRightIs(s: string, v: string)
    requires AllBlank(v) && (s != "" ==> s[|s| - 1] !in BLANKS)
    ensures TrimRight(s + v) == s
    decreases |v|
  {
    if v == "" {
      assert s + v == s;
      if s != "" { SpacesAreBlanks(s[|s| - 1]); }
    } else {
      SpacesAreBlanks(v[|v| - 1]);
      assert (s + v)[..|s + v| - 1] == s + v[..|v| - 1];
      TrimRightIs(s, v[..|v| - 1]);
    }
  }

  /** strip removes exactly the blanks at the ends. */
  lemma StripIs(u: string, s: string, v: string)
    requires AllBlank(u) && AllBlank(v) && Bare(s)
    ensures Strip(u + s + v) == s
  {
    if s == "" {
      assert u + s + v == (u + v) + "";
      TrimLeftIs(u + v, "");
    } else {
      assert u + s + v == u + (s + v);
      TrimLeftIs(u, s + v);
      TrimRightIs(s, v);
    }
  }

  lemma {:induction false} SplitLeft(e: string) returns (u: string, s: string)
    ensures e == u + s && AllBlank(u) && (s != "" ==> s[0] !in BLANKS)
  {
    if e == "" || e[0] !in BLANKS {
      u, s := "", e;
    } else {
      u, s := SplitLeft(e[1..]);
      u := [e[0]] + u;
      assert e == [e[0]] + e[1..];
    }
  }

  lemma {:induction false} SplitRight(e: string) returns (s: string, v: string)
    ensures e == s + v && AllBlank(v) && s <= e && (s != "" ==> s[|s| - 1] !in BLANKS)
  {
    if e == "" || e[|e| - 1] !in BLANKS {
      s, v := e, "";
    } else {
      s, v := SplitRight(e[..|e| - 1]);
      v := v + [e[|e| - 1]];
      assert e == e[..|e| - 1] + [e[|e| - 1]];
    }
  }

  /** Every string is its bare middle between blanks. */
  lemma Split(e: string) returns (u: string, s: string, v: string)
    ensures e == u + s + v && AllBlank(u) && AllBlank(v) && Bare(s)
  {
    var rest;
    u, rest := SplitLeft(e);
    s, v := SplitRight(rest);
    assert e == u + s + v;
  }
}
