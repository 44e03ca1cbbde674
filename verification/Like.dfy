/** SQLite's LIKE with ESCAPE '\', and the escaping that makes a search term match itself. */
module Like {

  /** LIKE folds the ASCII letters and nothing else. */
  function Fold(c: char): char {
    if 'A' <= c <= 'Z' then (c as int - 'A' as int + 'a' as int) as char else c
  }

  predicate SameFolded(a: string, b: string) {
    |a| == |b| && forall i :: 0 <= i < |a| ==> Fold(a[i]) == Fold(b[i])
  }

  predicate FoldedPrefix(t: string, s: string) {
    |t| <= |s| && SameFolded(t, s[..|t|])
  }

  /** The documented matching: % is any text, _ any one character, \ makes the next character literal. */
  predicate Matches(p: string, s: string)
    decreases |p|
  {
    if p == "" then s == ""
    else if p[0] == '%' then exists i :: 0 <= i <= |s| && Matches(p[1..], s[i..])
    else if p[0] == '_' then s != "" && Matches(p[1..], s[1..])
    else if p[0] == '\\' then |p| > 1 && s != "" && Fold(p[1]) == Fold(s[0]) && Matches(p[2..], s[1..])
    else s != "" && Fold(p[0]) == Fold(s[0]) && Matches(p[1..], s[1..])
  }

  /** str.replace of one character. */
  function Replace(t: string, c: char, replacement: string): string {
    if t == "" then "" else (if t[0] == c then replacement else [t[0]]) + Replace(t[1..], c, replacement)
  }

  /** The three replaces in the source's order. */
  function Escape(t: string): string {
    Replace(Replace(Replace(t, '\\', "\\\\"), '%', "\\%"), '_', "\\_")
  }

  function EscapeChar(c: char): string {
    if c == '\\' || c == '%' || c == '_' then ['\\', c] else [c]
  }

  function EscapeOnePass(t: string): string {
    if t == "" then "" else EscapeChar(t[0]) + EscapeOnePass(t[1..])
  }

  lemma {:induction false} ReplaceConcat(a: string, b: string, c: char, replacement: string)
    ensures Replace(a + b, c, replacement) == Replace(a, c, replacement) + Replace(b, c, replacement)
  {
    if a == "" {
      assert a + b == b;
    } else {
      assert (a + b)[1..] == a[1..] + b;
      ReplaceConcat(a[1..], b, c, replacement);
    }
  }

  lemma ReplaceShort(a: char, b: char, c: char, replacement: string)
    ensures Replace([a], c, replacement) == if a == c then replacement else [a]
    ensures Replace([a, b], c, replacement)
      == (if a == c then replacement else [a]) + (if b == c then replacement else [b])
  {
    assert [a, b][1..] == [b] && [a][1..] == "" && [b][1..] == "";
    assert Replace([b], c, replacement) == if b == c then replacement else [b];
  }

  lemma EscapeOneChar(c: char)
    ensures Escape([c]) == EscapeChar(c)
  {
    ReplaceShort(c, c, '\\', "\\\\");
    ReplaceShort(c, c, '%', "\\%");
    ReplaceShort(c, c, '_', "\\_");
    ReplaceShort('\\', '\\', '%', "\\%");
    ReplaceShort('\\', '\\', '_', "\\_");
    ReplaceShort('\\', '%', '_', "\\_");
  }

  lemma EscapeConcat(a: string, b: string)
    ensures Escape(a + b) == Escape(a) + Escape(b)
  {
    ReplaceConcat(a, b, '\\', "\\\\");
    var a1, b1 := Replace(a, '\\', "\\\\"), Replace(b, '\\', "\\\\");
    ReplaceConcat(a1, b1, '%', "\\%");
    ReplaceConcat(Replace(a1, '%', "\\%"), Replace(b1, '%', "\\%"), '_', "\\_");
  }

  /** Replacing one character after another never escapes an escape. */
  lemma {:induction false} ThreeReplacesAreOnePass(t: string)
    ensures Escape(t) == EscapeOnePass(t)
  {
    hide Escape;
    if t == "" {
      assert Escape("") == "" by { EscapeOfNothing(); }
    } else {
      assert t == [t[0]] + t[1..];
      EscapeConcat([t[0]], t[1..]);
      EscapeOneChar(t[0]);
      ThreeReplacesAreOnePass(t[1..]);
    }
  }

  lemma EscapeOfNothing()
    ensures Escape("") == ""
  {
  }

  /** An escaped text matches exactly the texts that equal it up to ASCII case. */
  lemma {:induction false} EscapedIsLiteral(t: string, q: string, s: string)
    ensures Matches(EscapeOnePass(t) + q, s) <==> FoldedPrefix(t, s) && Matches(q, s[|t|..])
  {
    if t == "" {
      assert EscapeOnePass(t) + q == q && s[0..] == s && s[..0] == t;
    } else {
      var e := EscapeOnePass(t[1..]) + q;
      assert EscapeOnePass(t) + q == EscapeChar(t[0]) + e;
      if s == "" {
        assert !Matches(EscapeChar(t[0]) + e, s);
      } else {
        EscapedIsLiteral(t[1..], q, s[1..]);
        assert |t| <= |s| ==> s[1..][|t[1..]|..] == s[|t|..];
        EscapedHead(t[0], e, s);
        HeadAndTail(t, s);
      }
    }
  }

  lemma EscapedHead(c: char, e: string, s: string)
    requires s != ""
    ensures Matches(EscapeChar(c) + e, s) <==> Fold(c) == Fold(s[0]) && Matches(e, s[1..])
  {
    var p := EscapeChar(c) + e;
    assert if |EscapeChar(c)| == 2 then p[2..] == e && p[1] == c else p[1..] == e && p[0] == c;
  }

  /** Two characters fold alike exactly when they are the same or one ASCII letter in its two cases. */
  lemma FoldsAlikeIff(a: char, b: char)
    ensures Fold(a) == Fold(b) <==>
      || a == b
      || ('A' <= a <= 'Z' && b as int == a as int + 32)
      || ('A' <= b <= 'Z' && a as int == b as int + 32)
  {
  }

  lemma FoldedPrefixAt(t: string, s: string)
    ensures FoldedPrefix(t, s) <==> |t| <= |s| && forall i :: 0 <= i < |t| ==> Fold(t[i]) == Fold(s[i])
  {
    if |t| <= |s| {
      assert forall i :: 0 <= i < |t| ==> s[..|t|][i] == s[i];
    }
    hide Fold;
  }

  lemma FoldedSplit(p: string, q: string, s: string)
    ensures FoldedPrefix(p + q, s) <==> FoldedPrefix(p, s) && FoldedPrefix(q, s[|p|..])
  {
    hide FoldedPrefix, Fold;
    FoldedPrefixAt(p + q, s);
    FoldedPrefixAt(p, s);
    if |p| <= |s| {
      FoldedPrefixAt(q, s[|p|..]);
      assert forall i :: 0 <= i < |q| ==> q[i] == (p + q)[|p| + i];
      assert forall i :: 0 <= i < |s| - |p| ==> s[|p|..][i] == s[|p| + i];
      assert forall i :: |p| <= i < |p + q| ==> (p + q)[i] == q[i - |p|];
    }
  }

  lemma HeadAndTail(t: string, s: string)
    requires t != "" && s != ""
    ensures FoldedPrefix(t, s) <==> Fold(t[0]) == Fold(s[0]) && FoldedPrefix(t[1..], s[1..])
  {
    hide FoldedPrefix, Fold;
    FoldedPrefixAt(t, s);
    FoldedPrefixAt(t[1..], s[1..]);
    if |t| <= |s| {
      assert forall i :: 0 <= i < |t| - 1 ==> t[1..][i] == t[i + 1] && s[1..][i] == s[i + 1];
      assert forall i :: 0 < i < |t| ==> t[i] == t[1..][i - 1] && s[i] == s[1..][i - 1];
    }
  }

  lemma AnyMatches(s: string)
    ensures Matches("%", s)
  {
    assert "%"[1..] == "" && s[|s|..] == "";
    assert Matches("%"[1..], s[|s|..]);
  }

  /** LIKE escape(t)% accepts exactly the texts that begin with t up to ASCII case. */
  lemma EscapedPrefix(t: string, s: string)
    ensures Matches(Escape(t) + "%", s) <==> FoldedPrefix(t, s)
  {
    ThreeReplacesAreOnePass(t);
    EscapedIsLiteral(t, "%", s);
    if |t| <= |s| {
      AnyMatches(s[|t|..]);
    }
  }

  /** LIKE %escape(t)% accepts exactly the texts that contain t up to ASCII case. */
  lemma EscapedSubstring(t: string, s: string)
    ensures Matches("%" + Escape(t) + "%", s) <==> exists i :: 0 <= i <= |s| && FoldedPrefix(t, s[i..])
  {
    var p := "%" + Escape(t) + "%";
    assert p[1..] == Escape(t) + "%" && p[0] == '%';
    forall i | 0 <= i <= |s| ensures Matches(p[1..], s[i..]) <==> FoldedPrefix(t, s[i..]) {
      EscapedPrefix(t, s[i..]);
    }
    hide Escape;
  }
}
