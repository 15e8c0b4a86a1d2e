/** What the compiled SQL means beside the in-memory directory. */
module SqlMeaning {
  import opened Text
  import opened Numerals
  import opened QueryAst
  import opened Directory
  import opened SqlText
  import opened SqlCompiler

  // ---- LIKE ---------------------------------------------------------------

  predicate IsWild(c: char) {
    c == '%' || c == '_'
  }

  predicate IsPlain(needle: string) {
    forall i :: 0 <= i < |needle| ==> !IsWild(needle[i])
  }

  lemma {:induction false} LikeAnything(s: string)
    ensures Like(s, "%")
  {
    assert "%"[1..] == "";
    if s != "" {
      LikeAnything(s[1..]);
    }
  }

  /** A plain pattern matches itself only; with `%` behind it, what it starts. */
  lemma {:induction false} LikePlain(s: string, n: string, tail: string)
    requires IsPlain(n)
    ensures Like(s, n + tail) <==> n <= s && Like(s[|n|..], tail)
    decreases |n|
  {
    if n == "" {
      assert n + tail == tail && s[0..] == s;
    } else {
      assert (n + tail)[1..] == n[1..] + tail;
      if s != "" {
        LikePlain(s[1..], n[1..], tail);
        assert n[1..] <= s[1..] ==> s[1..][|n| - 1..] == s[|n|..];
        assert n == [n[0]] + n[1..] && s == [s[0]] + s[1..];
      }
    }
  }

  /** `%` in front: some rest of the text matches. */
  lemma {:induction false} LikeSomeRest(s: string, p: string)
    ensures Like(s, "%" + p) <==> exists i :: 0 <= i <= |s| && Like(s[i..], p)
    decreases |s|
  {
    var q := "%" + p;
    assert q[1..] == p && s[0..] == s;
    if s != "" {
      LikeSomeRest(s[1..], p);
      if Like(s[1..], q) {
        var i :| 0 <= i <= |s[1..]| && Like(s[1..][i..], p);
        assert s[1..][i..] == s[i + 1..];
      }
      if i :| 0 < i <= |s| && Like(s[i..], p) {
        assert s[1..][i - 1..] == s[i..];
      }
    }
  }

  lemma {:induction false} PlainPrefix(f: string, n: string)
    requires IsPlain(n)
    ensures Like(f, n + "%") == (n <= f)
  {
    LikePlain(f, n, "%");
    if n <= f {
      LikeAnything(f[|n|..]);
    }
  }

  lemma {:induction false} PlainSuffix(f: string, n: string)
    requires IsPlain(n)
    ensures Like(f, "%" + n) == EndsWith(f, n)
  {
    LikeSomeRest(f, n);
    forall i | 0 <= i <= |f|
      ensures Like(f[i..], n) <==> f[i..] == n
    {
      LikePlain(f[i..], n, "");
      assert n + "" == n;
    }
    if EndsWith(f, n) {
      assert Like(f[|f| - |n|..], n);
    }
  }

  lemma {:induction false} PlainSubstring(f: string, n: string)
    requires IsPlain(n)
    ensures Like(f, "%" + (n + "%")) == Contains(f, n)
  {
    LikeSomeRest(f, n + "%");
    forall i | 0 <= i <= |f|
      ensures Like(f[i..], n + "%") <==> n <= f[i..]
    {
      PlainPrefix(f[i..], n);
    }
    if Contains(f, n) {
      var i :| 0 <= i <= |f| - |n| && n <= f[i..];
      assert Like(f[i..], n + "%");
    }
    if i :| 0 <= i <= |f| && Like(f[i..], n + "%") {
      assert n <= f[i..] && i <= |f| - |n|;
    }
  }

  /** A comparison in SQL. */
  predicate SqlMatches(kind: ValueKind, f: string, needle: string) {
    if kind == Exact || kind == Quoted then f == needle else Like(f, Pattern(kind, needle))
  }

  predicate IsWildKind(kind: ValueKind) {
    kind == Prefix || kind == Suffix || kind == Substring
  }

  /** A wildcard may stand for the one character in its place. */
  lemma {:induction false} LikeInPlace(f: string, n: string, tail: string)
    requires |f| == |n| && (forall i :: 0 <= i < |n| ==> f[i] == n[i] || IsWild(n[i])) && Like("", tail)
    ensures Like(f, n + tail)
    decreases |n|
  {
    if n == "" {
      assert n + tail == tail && f == "";
    } else {
      assert (n + tail)[1..] == n[1..] + tail;
      LikeInPlace(f[1..], n[1..], tail);
      WildFirst(f, n + tail);
    }
  }

  /** A character matches itself or the wildcard in its place. */
  lemma {:induction false} WildFirst(f: string, p: string)
    requires f != "" && p != "" && (IsWild(p[0]) || p[0] == f[0]) && Like(f[1..], p[1..])
    ensures Like(f, p)
  {
    if p[0] == '%' {
      var p1 := p[1..];
      assert p == "%" + p1;
      LikeSomeRest(f, p1);
      assert Like(f[1..], p1);
    }
  }

  /** Compiled and interpreted comparison agree on every field exactly when a
      wildcard needle has no `%` and no `_` of its own. */
  lemma {:induction false} AgreeExactly(kind: ValueKind, needle: string)
    ensures (forall f :: SqlMatches(kind, f, needle) == TextMatches(kind, f, needle))
            <==> (IsWildKind(kind) ==> IsPlain(needle))
  {
    if IsWildKind(kind) && !IsPlain(needle) {
      var k :| 0 <= k < |needle| && IsWild(needle[k]);
      WildDiffers(kind, needle, k);
    } else {
      forall f
        ensures SqlMatches(kind, f, needle) == TextMatches(kind, f, needle)
      {
        PlainAgrees(kind, f, needle);
      }
    }
  }

  lemma {:induction false} PlainAgrees(kind: ValueKind, f: string, needle: string)
    requires IsWildKind(kind) ==> IsPlain(needle)
    ensures SqlMatches(kind, f, needle) == TextMatches(kind, f, needle)
  {
    match kind
    case Exact =>
    case Quoted =>
    case Prefix => PlainPrefix(f, needle);
    case Suffix => PlainSuffix(f, needle);
    case Substring => PlainSubstring(f, needle);
  }

  lemma {:induction false} WildDiffers(kind: ValueKind, needle: string, k: nat)
    requires IsWildKind(kind) && k < |needle| && IsWild(needle[k])
    ensures var f := needle[k := 'a']; SqlMatches(kind, f, needle) && !TextMatches(kind, f, needle)
  {
    var f := needle[k := 'a'];
    LikeAnything("");
    LikeInPlace(f, needle, "%");
    LikeInPlace(f, needle, "");
    assert needle + "" == needle && f[0..] == f && Like("", "");
    LikeSomeRest(f, needle);
    LikeSomeRest(f, needle + "%");
    assert Like(f[0..], needle) && Like(f[0..], needle + "%");
    SameLength(f, needle);
  }

  lemma {:induction false} SameLength(f: string, n: string)
    requires |f| == |n| && f != n
    ensures !(n <= f) && !EndsWith(f, n) && !Contains(f, n)
  {
    assert f[0..] == f;
    assert n <= f[0..] ==> n == f;
  }
}
