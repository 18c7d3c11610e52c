/** The path normaliser that the mock server's loader, dispatcher and importer share. */
module RoutePaths {
  import opened PyText

  /** `_normalize_path`. */
  function NormalizePath(path: string): string {
    var raw := Strip(path);
    if raw == [] then "/"
    else
      var rooted := if raw[0] == '/' then raw else ['/'] + raw;
      if |rooted| > 1 then TrimRight(rooted, IsSlash) else rooted
  }

  lemma {:induction false} TrailingZero(s: string, drop: char -> bool, n: nat)
    requires n <= |s|
    ensures Trailing(s, drop, n) == 0 <==> forall i | 0 <= i < n :: drop(s[i])
  {
    if n == 0 || !drop(s[n - 1]) {
    } else {
      TrailingZero(s, drop, n - 1);
    }
  }

  lemma TrimRightKeepsFirst(s: string, drop: char -> bool)
    ensures TrimRight(s, drop) != [] ==> TrimRight(s, drop)[0] == s[0]
    ensures TrimRight(s, drop) == [] <==> forall i | 0 <= i < |s| :: drop(s[i])
  {
    TrailingZero(s, drop, |s|);
  }

  /** A normalised path is empty, a single slash, or starts with a slash and ends with none. */
  lemma NormalShape(path: string)
    ensures var p := NormalizePath(path);
            p == [] || p == "/" || (|p| > 1 && p[0] == '/' && p[|p| - 1] != '/')
  {
    hide Strip, TrimRight;
    var raw := Strip(path);
    if raw != [] {
      var rooted := if raw[0] == '/' then raw else ['/'] + raw;
      TrimRightKeepsFirst(rooted, IsSlash);
      assert |rooted| == 1 ==> rooted == "/";
    }
  }

  lemma SlashKeeps(p: string)
    requires p != [] && p[|p| - 1] != '/'
    ensures TrimRight(p, IsSlash) == p
  {
  }

  /** Normalising twice is normalising once exactly when the first result is not empty and does not end
      in a space: the empty path would become a slash, and a trailing space would be dropped. */
  lemma NormalFormIsExact(path: string)
    ensures var p := NormalizePath(path);
            NormalizePath(p) == p <==> p != [] && !IsSpace(p[|p| - 1])
  {
    hide Strip, TrimRight;
    var p := NormalizePath(path);
    NormalShape(path);
    if p == [] {
      StripKeeps(p);
    } else if !IsSpace(p[|p| - 1]) {
      StripKeeps(p);
      if |p| > 1 {
        SlashKeeps(p);
      }
    } else {
      StripEnds(p);
      NormalShape(p);
      var raw := Strip(p);
      if raw != [] && NormalizePath(p) == p {
        var rooted := if raw[0] == '/' then raw else ['/'] + raw;
        TrimPrefix(rooted);
        assert IsSpace(p[|p| - 1]);
        if raw[0] != '/' {
          StripFirst(p);
        }
      }
    }
  }

  lemma TrimPrefix(s: string)
    ensures TrimRight(s, IsSlash) <= s
  {
  }

  lemma StripEnds(s: string)
    ensures |Strip(s)| <= |s|
    ensures s != [] && IsSpace(s[|s| - 1]) ==> |Strip(s)| < |s|
  {
    hide IsSpace, Trim;
    if s != [] && IsSpace(s[|s| - 1]) {
      TrimShortens(s, IsSpace);
    }
  }

  /** Stripping text that starts with a slash keeps the slash first. */
  lemma StripFirst(s: string)
    requires s != [] && s[0] == '/'
    ensures Strip(s) != [] && Strip(s)[0] == '/'
  {
    assert TrimLeft(s, IsSpace) == s;
    TrimRightKeepsFirst(s, IsSpace);
    assert !IsSpace(s[0]);
  }

  lemma TrimOne(s: string, c: char, drop: char -> bool)
    requires s != [] && !drop(s[|s| - 1]) && drop(c)
    ensures TrimRight(s + [c], drop) == s
  {
    var t := s + [c];
    assert t[|s| - 1] == s[|s| - 1];
    assert Trailing(t, drop, |t|) == Trailing(t, drop, |s|) == |s|;
  }

  /** Two paths that are not in normal form after one pass: the root written twice, and a space before a
      final slash. */
  lemma NotNormalForms()
    ensures NormalizePath("//") == [] && NormalizePath("//") != NormalizePath(NormalizePath("//"))
    ensures NormalizePath("/a /") == "/a " && NormalizePath("/a /") != NormalizePath(NormalizePath("/a /"))
  {
    hide Strip, TrimRight;
    StripKeeps("//");
    TrimRightKeepsFirst("//", IsSlash);
    NormalFormIsExact("//");
    StripKeeps("/a /");
    TrimOne("/a ", '/', IsSlash);
    assert "/a " + ['/'] == "/a /";
    NormalFormIsExact("/a /");
  }

  /** A path is read without the space around it and without the slashes at its end, and with a slash in
      front; an empty path is a single slash, but several slashes are an empty path. */
  lemma PathIsRead(path: string) returns (slashes: string)
    ensures var t := Strip(path);
            && (t == [] || t == "/" ==> NormalizePath(path) == "/")
            && (t != [] && t != "/" ==>
                  && (if t[0] == '/' then t else "/" + t) == NormalizePath(path) + slashes
                  && (forall i | 0 <= i < |slashes| :: slashes[i] == '/')
                  && (NormalizePath(path) != [] ==> NormalizePath(path)[|NormalizePath(path)| - 1] != '/'))
  {
    hide Strip;
    var t := Strip(path);
    slashes := [];
    if t != [] && t != "/" {
      var rooted := if t[0] == '/' then t else "/" + t;
      assert t == [t[0]] + t[1..];
      assert |rooted| > 1;
      TrailingDropped(rooted, IsSlash, |rooted|);
      slashes := rooted[|NormalizePath(path)|..];
    }
  }
}
