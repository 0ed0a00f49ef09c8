/**
 Escaping a literal for SQL's LIKE operator
 (crates/running-process-probe-daemon/src/crash_query.rs).

 `Like` is SQLite's LIKE with the backslash as escape character: `%` stands for
 any run of characters, `_` for exactly one, an escaped character for itself,
 and letters compare without regard to ASCII case.
 */
module LikeEscape {
  import Strings

  predicate IsSpecial(c: char) {
    c == '%' || c == '_' || c == '\\'
  }

  function Fold(c: char): char {
    if 'A' <= c <= 'Z' then (c as int + 32) as char else c
  }

  ghost predicate SameText(p: string, t: string) {
    |p| == |t| && forall i :: 0 <= i < |p| ==> Fold(p[i]) == Fold(t[i])
  }

  predicate Like(pattern: string, t: string)
    decreases |pattern|, |t|
  {
    if pattern == "" then
      t == ""
    else if pattern[0] == '%' then
      Like(pattern[1..], t) || (t != "" && Like(pattern, t[1..]))
    else if pattern[0] == '_' then
      t != "" && Like(pattern[1..], t[1..])
    else if pattern[0] == '\\' then
      // An escape character with nothing after it matches nothing.
      |pattern| > 1 && t != "" && Fold(pattern[1]) == Fold(t[0]) && Like(pattern[2..], t[1..])
    else
      t != "" && Fold(pattern[0]) == Fold(t[0]) && Like(pattern[1..], t[1..])
  }

  function Escaped(literal: string): string {
    if literal == "" then ""
    else (if IsSpecial(literal[0]) then ['\\', literal[0]] else [literal[0]]) + Escaped(literal[1..])
  }

  method EscapeLike(literal: string) returns (out: string)
    ensures out == Escaped(literal)
    ensures forall t :: Like(out, t) <==> SameText(literal, t)
  {
    out := "";
    for k := 0 to |literal|
      invariant out + Escaped(literal[k..]) == Escaped(literal)
    {
      EscapeOne(out, literal, k);
      var ch := literal[k];
      if ch == '%' || ch == '_' || ch == '\\' {
        out := out + ['\\'];
      }
      out := out + [ch];
    }
    assert out == Escaped(literal) by {
      assert Escaped(literal[|literal|..]) == "";
    }
    forall t ensures Like(Escaped(literal), t) <==> SameText(literal, t) {
      EscapedMatchesItself(literal, t);
    }
  }

  lemma EscapeOne(out: string, literal: string, k: nat)
    requires k < |literal|
    ensures out + Escaped(literal[k..])
         == (if IsSpecial(literal[k]) then out + ['\\'] + [literal[k]] else out + [literal[k]]) + Escaped(literal[k + 1..])
  {
    assert literal[k..][1..] == literal[k + 1..];
    if IsSpecial(literal[k]) {
      assert ['\\', literal[k]] == ['\\'] + [literal[k]];
      Strings.Regroup(out, ['\\'], [literal[k]], Escaped(literal[k + 1..]));
    } else {
      Strings.Regroup(out, [literal[k]], Escaped(literal[k + 1..]), "");
    }
  }

  /** Two characters are alike if they are the same, or one letter in both cases. */
  lemma FoldMeans(a: char, b: char)
    ensures Fold(a) == Fold(b) <==>
              || a == b
              || ('A' <= a <= 'Z' && b as int == a as int + 32)
              || ('A' <= b <= 'Z' && a as int == b as int + 32)
  {
  }

  /** What each kind of pattern character stands for, before any further pattern. */
  lemma LikeMeans(c: char, rest: string, t: string)
    ensures Like("", t) <==> t == ""
    ensures !IsSpecial(c) ==> (Like([c] + rest, t) <==> t != "" && Fold(c) == Fold(t[0]) && Like(rest, t[1..]))
    ensures Like("\\" + [c] + rest, t) <==> t != "" && Fold(c) == Fold(t[0]) && Like(rest, t[1..])
    ensures Like("_" + rest, t) <==> t != "" && Like(rest, t[1..])
  {
    assert ([c] + rest)[1..] == rest;
    assert ("\\" + [c] + rest)[2..] == rest;
    assert ("_" + rest)[1..] == rest;
  }

  lemma {:induction false} PercentMeans(rest: string, t: string)
    ensures Like("%" + rest, t) <==> exists k :: 0 <= k <= |t| && Like(rest, t[k..])
    decreases |t|
  {
    var p := "%" + rest;
    assert p[1..] == rest;
    assert t[0..] == t;
    if t != "" {
      PercentMeans(rest, t[1..]);
      if Like(p, t[1..]) {
        var k :| 0 <= k <= |t[1..]| && Like(rest, t[1..][k..]);
        assert t[1..][k..] == t[k + 1..];
      }
      if k :| 0 <= k <= |t| && Like(rest, t[k..]) {
        if k > 0 {
          assert t[1..][k - 1..] == t[k..];
        }
      }
    }
  }

  /** An escaped literal followed by any pattern matches the texts that start with
      the literal and go on with a match of that pattern, and no others. */
  lemma {:induction false} EscapedThenPattern(literal: string, pattern: string, t: string)
    ensures Like(Escaped(literal) + pattern, t)
        <==> |literal| <= |t| && SameText(literal, t[..|literal|]) && Like(pattern, t[|literal|..])
    decreases |literal|
  {
    var whole := Escaped(literal) + pattern;
    if literal == "" {
      assert whole == pattern;
    } else {
      var tail := Escaped(literal[1..]) + pattern;
      if IsSpecial(literal[0]) {
        assert whole[0] == '\\' && whole[1] == literal[0] && whole[2..] == tail;
      } else {
        assert whole[0] == literal[0] && whole[1..] == tail;
      }
      if t != "" {
        EscapedThenPattern(literal[1..], pattern, t[1..]);
        if |literal| <= |t| {
          assert t[1..][..|literal| - 1] == t[..|literal|][1..];
          assert t[1..][|literal| - 1..] == t[|literal|..];
          SameTextHead(literal, t[..|literal|]);
        }
      }
    }
  }

  lemma SameTextHead(p: string, t: string)
    requires p != "" && t != ""
    ensures SameText(p, t) <==> Fold(p[0]) == Fold(t[0]) && SameText(p[1..], t[1..])
  {
    if |p| == |t| && Fold(p[0]) == Fold(t[0]) && SameText(p[1..], t[1..]) {
      forall i | 0 <= i < |p| ensures Fold(p[i]) == Fold(t[i]) {
        if i > 0 {
          assert Fold(p[1..][i - 1]) == Fold(t[1..][i - 1]);
        }
      }
    }
  }

  /** The escaped literal matches exactly the literal, up to ASCII case. */
  lemma EscapedMatchesItself(literal: string, t: string)
    ensures Like(Escaped(literal), t) <==> SameText(literal, t)
  {
    assert Escaped(literal) + "" == Escaped(literal);
    EscapedThenPattern(literal, "", t);
    if |literal| <= |t| {
      if |literal| == |t| {
        assert t[..|literal|] == t;
      }
    }
  }

  lemma {:induction false} PercentMatchesAnything(t: string)
    ensures Like("%", t)
    decreases |t|
  {
    assert "%"[1..] == "";
    if t != "" {
      PercentMatchesAnything(t[1..]);
    }
  }

  /** The escaped literal and a `%` match exactly the texts that it is a prefix of. */
  lemma EscapedPrefix(literal: string, t: string)
    ensures Like(Escaped(literal) + "%", t)
        <==> |literal| <= |t| && SameText(literal, t[..|literal|])
  {
    EscapedThenPattern(literal, "%", t);
    if |literal| <= |t| {
      PercentMatchesAnything(t[|literal|..]);
    }
  }

  // ------------------------------------------- when the escaping is needed

  /** The pattern ends in the middle of an escape. */
  predicate Dangling(p: string) {
    p != "" &&
    if p[0] == '\\' then |p| == 1 || Dangling(p[2..]) else Dangling(p[1..])
  }

  /** A shortest text that the pattern matches. */
  function Sample(p: string): (t: string)
    ensures |t| <= |p|
  {
    if p == "" then ""
    else if p[0] == '%' then Sample(p[1..])
    else if p[0] == '_' then "x" + Sample(p[1..])
    else if p[0] == '\\' then if |p| == 1 then "" else [p[1]] + Sample(p[2..])
    else [p[0]] + Sample(p[1..])
  }

  lemma {:induction false} SampleMatches(p: string)
    requires !Dangling(p)
    ensures Like(p, Sample(p))
  {
    if p == "" {
    } else if p[0] == '\\' {
      SampleMatches(p[2..]);
      assert Sample(p)[1..] == Sample(p[2..]);
    } else {
      SampleMatches(p[1..]);
      if p[0] != '%' {
        assert Sample(p)[1..] == Sample(p[1..]);
      }
    }
  }

  lemma {:induction false} DanglingMatchesNothing(p: string, t: string)
    requires Dangling(p)
    ensures !Like(p, t)
    decreases |p|, |t|
  {
    if p[0] == '%' {
      DanglingMatchesNothing(p[1..], t);
      if t != "" {
        DanglingMatchesNothing(p, t[1..]);
      }
    } else if t != "" {
      if p[0] != '\\' {
        DanglingMatchesNothing(p[1..], t[1..]);
      } else if |p| > 1 {
        DanglingMatchesNothing(p[2..], t[1..]);
      }
    }
  }

  lemma {:induction false} SampleDiffers(p: string, i: nat)
    requires i < |p| && IsSpecial(p[i])
    ensures !SameText(p, Sample(p))
  {
    if p[0] == '_' {
      assert Sample(p)[0] == 'x';
    } else if !IsSpecial(p[0]) {
      SampleDiffers(p[1..], i - 1);
      SameTextHead(p, Sample(p));
      assert Sample(p)[1..] == Sample(p[1..]);
    }
  }

  /** A literal used as a pattern without escaping means itself exactly when it
      holds none of the three special characters. */
  lemma UnescapedIsLiteralExactlyWhenPlain(p: string)
    ensures (forall t :: Like(p, t) <==> SameText(p, t))
       <==> (forall i :: 0 <= i < |p| ==> !IsSpecial(p[i]))
  {
    if forall i :: 0 <= i < |p| ==> !IsSpecial(p[i]) {
      PlainIsUnchanged(p);
      forall t ensures Like(p, t) <==> SameText(p, t) {
        EscapedMatchesItself(p, t);
      }
    } else {
      var i :| 0 <= i < |p| && IsSpecial(p[i]);
      if Dangling(p) {
        DanglingMatchesNothing(p, p);
        assert SameText(p, p);
      } else {
        SampleMatches(p);
        SampleDiffers(p, i);
      }
    }
  }

  lemma {:induction false} PlainIsUnchanged(p: string)
    requires forall i :: 0 <= i < |p| ==> !IsSpecial(p[i])
    ensures Escaped(p) == p
  {
    if p != "" {
      PlainIsUnchanged(p[1..]);
    }
  }
}
