/**
 * Text operations the database and Python perform on strings: ASCII case
 * folding, code-point lexicographic order (Python's `<` on `str`), substring
 * occurrence, and SQL `LIKE` / `ILIKE` pattern matching.
 */
module Text {

  /** Lower-cases an ASCII capital letter; every other character is unchanged. */
  function Lower(c: char): (r: char)
    ensures 'A' <= c <= 'Z' ==> 'a' <= r <= 'z' && r as int - c as int == 32
    ensures !('A' <= c <= 'Z') ==> r == c
  {
    if 'A' <= c <= 'Z' then (c as int + 32) as char else c
  }

  function LowerString(s: string): (r: string)
    ensures |r| == |s|
    ensures forall i :: 0 <= i < |s| ==> r[i] == Lower(s[i])
  {
    seq(|s|, i requires 0 <= i < |s| => Lower(s[i]))
  }

  lemma {:induction false} LowerStringAppend(a: string, b: string)
    ensures LowerString(a + b) == LowerString(a) + LowerString(b)
  {
    assert forall i :: 0 <= i < |a + b| ==> LowerString(a + b)[i] == (LowerString(a) + LowerString(b))[i];
  }

  // ---------------------------------------------------------------------
  // Lexicographic order on strings, by code point, as Python compares `str`
  // ---------------------------------------------------------------------

  predicate StringLess(a: string, b: string)
  {
    if a == [] then b != []
    else if b == [] then false
    else if a[0] != b[0] then a[0] < b[0]
    else StringLess(a[1..], b[1..])
  }

  lemma {:induction false} StringLessIrreflexive(a: string)
    ensures !StringLess(a, a)
  {
    if a != [] {
      StringLessIrreflexive(a[1..]);
    }
  }

  lemma {:induction false} StringLessTransitive(a: string, b: string, c: string)
    requires StringLess(a, b) && StringLess(b, c)
    ensures StringLess(a, c)
  {
    if a != [] && b != [] && c != [] && a[0] == b[0] && b[0] == c[0] {
      StringLessTransitive(a[1..], b[1..], c[1..]);
    }
  }

  /** Any two different strings are ordered one way or the other. */
  lemma {:induction false} StringLessTotal(a: string, b: string)
    requires a != b
    ensures StringLess(a, b) || StringLess(b, a)
  {
    if a != [] && b != [] && a[0] == b[0] {
      assert a == [a[0]] + a[1..] && b == [b[0]] + b[1..];
      StringLessTotal(a[1..], b[1..]);
    }
  }

  lemma {:induction false} StringLessAsymmetric(a: string, b: string)
    requires StringLess(a, b)
    ensures !StringLess(b, a)
  {
    if a != [] && b != [] && a[0] == b[0] {
      StringLessAsymmetric(a[1..], b[1..]);
    }
  }

  // ---------------------------------------------------------------------
  // Substring occurrence: the reference meaning of a name search
  // ---------------------------------------------------------------------

  ghost predicate OccursAt(s: string, t: string, i: int)
  {
    0 <= i <= |s| && t <= s[i..]
  }

  /** `t` occurs somewhere in `s`. */
  ghost predicate Contains(s: string, t: string)
  {
    exists i :: OccursAt(s, t, i)
  }

  /** `t` occurs in `s` when case is ignored. */
  ghost predicate ContainsIgnoringCase(s: string, t: string)
  {
    Contains(LowerString(s), LowerString(t))
  }

  // ---------------------------------------------------------------------
  // SQL LIKE: '%' any run of characters, '_' any one character, '\' escapes
  // the next character; ILIKE compares after lower-casing both sides
  // ---------------------------------------------------------------------

  /** A term with no character that `LIKE` treats specially. */
  predicate IsLiteral(t: string)
  {
    forall i :: 0 <= i < |t| ==> t[i] != '%' && t[i] != '_' && t[i] != '\\'
  }

  /** The tail of a literal term is literal. */
  lemma LiteralTail(t: string)
    requires IsLiteral(t) && t != []
    ensures IsLiteral(t[1..])
  {
    forall i | 0 <= i < |t[1..]| ensures t[1..][i] != '%' && t[1..][i] != '_' && t[1..][i] != '\\' {
      assert t[1..][i] == t[i + 1];
    }
  }

  /** `s LIKE p`; a pattern without special characters matches only itself. */
  predicate LikeMatch(s: string, p: string): (b: bool)
    ensures IsLiteral(p) ==> (b <==> s == p)
    decreases |s| + |p|
  {
    if p == [] then s == []
    else if p[0] == '%' then LikeMatch(s, p[1..]) || (s != [] && LikeMatch(s[1..], p))
    else if p[0] == '_' then s != [] && LikeMatch(s[1..], p[1..])
    else if p[0] == '\\' && |p| >= 2 then s != [] && s[0] == p[1] && LikeMatch(s[1..], p[2..])
    else
      assert IsLiteral(p) ==> IsLiteral(p[1..]) by {
        if IsLiteral(p) {
          LiteralTail(p);
        }
      }
      assert s != [] ==> (s == p <==> s[0] == p[0] && s[1..] == p[1..]);
      s != [] && s[0] == p[0] && LikeMatch(s[1..], p[1..])
  }

  /** `s ILIKE p`; without special characters it is equality ignoring case. */
  predicate ILike(s: string, p: string): (b: bool)
    ensures IsLiteral(p) ==> (b <==> LowerString(s) == LowerString(p))
  {
    assert IsLiteral(p) ==> IsLiteral(LowerString(p)) by {
      if IsLiteral(p) {
        LowerKeepsLiteral(p);
      }
    }
    LikeMatch(LowerString(s), LowerString(p))
  }

  /** A lone '%' matches every string. */
  lemma {:induction false} PercentMatchesAll(s: string)
    ensures LikeMatch(s, "%")
  {
    assert "%"[1..] == [];
    if s != [] {
      PercentMatchesAll(s[1..]);
    }
  }

  /** A literal followed by '%' matches exactly the strings that start with the literal. */
  lemma {:induction false} LiteralThenPercent(s: string, t: string)
    requires IsLiteral(t)
    ensures LikeMatch(s, t + "%") <==> t <= s
  {
    if t == [] {
      assert t + "%" == "%";
      PercentMatchesAll(s);
    } else {
      var p := t + "%";
      assert p[0] == t[0] && p[1..] == t[1..] + "%";
      LiteralTail(t);
      if s != [] {
        LiteralThenPercent(s[1..], t[1..]);
        assert t <= s <==> t[0] == s[0] && t[1..] <= s[1..];
      }
    }
  }

  /** A leading '%' lets the rest of the pattern match any suffix. */
  lemma {:induction false} LeadingPercent(s: string, q: string)
    ensures LikeMatch(s, "%" + q) <==> exists i :: 0 <= i <= |s| && LikeMatch(s[i..], q)
  {
    var p := "%" + q;
    assert p[0] == '%' && p[1..] == q;
    assert s[0..] == s;
    if s != [] {
      LeadingPercent(s[1..], q);
      if exists i :: 0 <= i <= |s| && LikeMatch(s[i..], q) {
        var i :| 0 <= i <= |s| && LikeMatch(s[i..], q);
        if i > 0 {
          assert s[1..][i - 1..] == s[i..];
        }
      }
      if exists j :: 0 <= j <= |s[1..]| && LikeMatch(s[1..][j..], q) {
        var j :| 0 <= j <= |s[1..]| && LikeMatch(s[1..][j..], q);
        assert s[1..][j..] == s[j + 1..];
      }
    }
  }

  /** `LIKE '%t%'` with a literal `t` is substring search. */
  lemma LikeIsContains(s: string, t: string)
    requires IsLiteral(t)
    ensures LikeMatch(s, "%" + t + "%") <==> Contains(s, t)
  {
    assert "%" + t + "%" == "%" + (t + "%");
    LeadingPercent(s, t + "%");
    forall i | 0 <= i <= |s|
      ensures LikeMatch(s[i..], t + "%") <==> OccursAt(s, t, i)
    {
      LiteralThenPercent(s[i..], t);
    }
  }

  /** Lower-casing keeps a literal term literal. */
  lemma LowerKeepsLiteral(t: string)
    requires IsLiteral(t)
    ensures IsLiteral(LowerString(t))
  {
  }

  /**
   * `ILIKE '%t%'` with a literal `t` is case-insensitive substring search,
   * which is how the search pages are meant to behave.
   */
  lemma {:induction false} ILikeIsContainsIgnoringCase(s: string, t: string)
    requires IsLiteral(t)
    ensures ILike(s, "%" + t + "%") <==> ContainsIgnoringCase(s, t)
  {
    LowerStringAppend("%" + t, "%");
    LowerStringAppend("%", t);
    assert LowerString("%") == "%";
    LowerKeepsLiteral(t);
    LikeIsContains(LowerString(s), LowerString(t));
  }

  /** A search term of a single '%' matches every name: it is a wildcard, not a literal. */
  lemma {:induction false} PercentTermMatchesAll(s: string)
    ensures ILike(s, "%" + "%" + "%")
  {
    assert LowerString("%%%") == "%%%";
    assert "%" + "%" + "%" == "%%%";
    var l := LowerString(s);
    assert "%%%"[1..] == "%%";
    assert "%%"[1..] == "%";
    PercentMatchesAll(l);
    assert LikeMatch(l, "%%") by {
      assert LikeMatch(l, "%%"[1..]);
    }
  }
}
