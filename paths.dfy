/** Path and identifier strings: `posixpath.join`, the `"~~~"` escape of gallery ids
    and the last-segment split that `model_local_delete` uses. */
module Paths {

  predicate IsAbsolute(p: string) {
    |p| > 0 && p[0] == '/'
  }

  /** `posixpath.join(a, b)`: an absolute `b` replaces `a`; otherwise a single '/'
      goes between them unless `a` is empty or already ends in one. */
  function Join(a: string, b: string): (r: string)
    ensures IsAbsolute(b) ==> r == b
    ensures !IsAbsolute(b) ==>
      && |a| + |b| <= |r| <= |a| + |b| + 1
      && r[..|a|] == a && r[|r| - |b|..] == b
  {
    if IsAbsolute(b) then b
    else if a == "" || a[|a| - 1] == '/' then a + b
    else a + "/" + b
  }

  /** `os.path.join(models_dir, entry)` for an entry of `os.scandir(models_dir)`: the
      `os.DirEntry` stands for its own `path`, which is `os.path.join(models_dir, entry.name)`. */
  function ScannedDirPath(modelsDir: string, name: string): (r: string)
    ensures IsAbsolute(modelsDir) ==> r == Join(modelsDir, name)
  {
    var p := Join(modelsDir, name);
    assert IsAbsolute(modelsDir) && !IsAbsolute(name) ==> p[0] == modelsDir[0];
    Join(modelsDir, p)
  }

  /** With an absolute models directory the scanned path is the directory joined with the entry name. */
  lemma ScannedDirPathOfAbsoluteDir(modelsDir: string, name: string)
    requires IsAbsolute(modelsDir)
    requires !IsAbsolute(name)
    ensures ScannedDirPath(modelsDir, name) == modelsDir + name
         || ScannedDirPath(modelsDir, name) == modelsDir + "/" + name
  {
    assert !IsAbsolute(name);
  }

  // ---------------------------------------------------------------------------
  // Gallery ids in a URL path segment

  /** `s.replace("~~~", "/")`: occurrences are replaced left to right, without overlap. */
  function Unescape(s: string): (r: string)
    ensures |r| <= |s|
    ensures '~' !in s ==> r == s
    decreases |s|
  {
    if |s| >= 3 && s[..3] == "~~~" then
      assert s[0] in s;
      "/" + Unescape(s[3..])
    else if s == "" then ""
    else
      assert '~' !in s ==> '~' !in s[1..];
      [s[0]] + Unescape(s[1..])
  }

  /** The callers' side of the convention: every '/' of an id is written as `"~~~"`. */
  function Escape(s: string): string
    decreases |s|
  {
    if s == "" then ""
    else (if s[0] == '/' then "~~~" else [s[0]]) + Escape(s[1..])
  }

  /** No three consecutive '~' characters. */
  predicate TripleFree(s: string)
    decreases |s|
  {
    |s| < 3 || (s[..3] != "~~~" && TripleFree(s[1..]))
  }

  /** Unescaping undoes escaping for every id that has no '~' of its own. */
  lemma {:induction false} UnescapeEscape(s: string)
    requires '~' !in s
    ensures Unescape(Escape(s)) == s
    decreases |s|
  {
    if s != "" {
      assert '~' !in s[1..] by {
        forall i | 0 <= i < |s[1..]| ensures s[1..][i] != '~' {
          assert s[1..][i] == s[i + 1];
        }
      }
      var t := Escape(s[1..]);
      UnescapeEscape(s[1..]);
      if s[0] == '/' {
        assert Escape(s) == "~~~" + t;
        assert ("~~~" + t)[..3] == "~~~";
        assert ("~~~" + t)[3..] == t;
      } else {
        var e := [s[0]] + t;
        assert Escape(s) == e;
        assert s[0] in s;
        assert |e| >= 3 ==> e[..3][0] == s[0];
        assert e[1..] == t;
        assert Unescape(e) == [s[0]] + Unescape(t);
      }
    }
  }

  lemma {:induction false} UnescapeKeepsFirstChar(s: string)
    requires s != "" && s[0] != '~'
    ensures Unescape(s) != "" && Unescape(s)[0] == s[0]
  {
    assert |s| >= 3 ==> s[..3][0] == s[0];
  }

  /** After the replacement no `"~~~"` is left in the id. */
  lemma {:induction false} UnescapeTripleFree(s: string)
    ensures TripleFree(Unescape(s))
    decreases |s|
  {
    if |s| >= 3 && s[..3] == "~~~" {
      UnescapeTripleFree(s[3..]);
      var u := Unescape(s[3..]);
      assert Unescape(s) == "/" + u;
      assert ("/" + u)[1..] == u;
      assert |"/" + u| >= 3 ==> ("/" + u)[..3][0] == '/';
    } else if s != "" {
      UnescapeTripleFree(s[1..]);
      var u := Unescape(s[1..]);
      var r := [s[0]] + u;
      assert Unescape(s) == r;
      assert r[1..] == u;
      if |r| >= 3 {
        assert r[..3] == [s[0], u[0], u[1]];
        if s[0] == '~' {
          assert s[1..] != "";
          if s[1] != '~' {
            UnescapeKeepsFirstChar(s[1..]);
          } else {
            var t := s[2..];
            assert s[1..][1..] == t;
            assert |s| == 2 || s[2] != '~' by {
              if |s| >= 3 { assert s[..3] == [s[0], s[1], s[2]]; }
            }
            assert |s[1..]| >= 3 ==> s[1..][..3][1] == s[2];
            assert u == [s[1]] + Unescape(t);
            UnescapeKeepsFirstChar(t);
            assert u[1] == t[0];
          }
        }
      }
    }
  }

  // ---------------------------------------------------------------------------
  // The directory name `model_local_delete` checks

  /** `s.rsplit('/', 1)[-1]`: the text after the last '/', or all of `s` when it has none. */
  function LastSegment(s: string): (r: string)
    ensures '/' !in r
    decreases |s|
  {
    if s == "" || s[|s| - 1] == '/' then ""
    else LastSegment(s[..|s| - 1]) + [s[|s| - 1]]
  }

  /** The segment is a suffix of `s` without '/', preceded by a '/' unless it is all of `s`. */
  lemma {:induction false} LastSegmentIsFinalSegment(s: string)
    ensures '/' !in LastSegment(s)
    ensures |LastSegment(s)| <= |s| && s[|s| - |LastSegment(s)|..] == LastSegment(s)
    ensures |LastSegment(s)| == |s| || s[|s| - |LastSegment(s)| - 1] == '/'
    decreases |s|
  {
    if s != "" && s[|s| - 1] != '/' {
      var init := s[..|s| - 1];
      LastSegmentIsFinalSegment(init);
      var r := LastSegment(init);
      assert LastSegment(s) == r + [s[|s| - 1]];
      assert s[|s| - |r| - 1..] == init[|init| - |r|..] + [s[|s| - 1]];
    }
  }

  /** An id without '/' names its directory in full. */
  lemma WholeIdWithoutSlash(s: string)
    requires '/' !in s
    ensures LastSegment(s) == s
  {
    LastSegmentIsFinalSegment(s);
  }

  /** Splitting `prefix + "/" + name` gives back `name`. */
  lemma {:induction false} LastSegmentAfterSlash(prefix: string, name: string)
    requires '/' !in name
    ensures LastSegment(prefix + "/" + name) == name
    decreases |name|
  {
    var s := prefix + "/" + name;
    if name == "" {
      assert s[|s| - 1] == '/';
    } else {
      var init := name[..|name| - 1];
      assert '/' !in init by {
        forall i | 0 <= i < |init| ensures init[i] != '/' { assert init[i] == name[i]; }
      }
      LastSegmentAfterSlash(prefix, init);
      assert s[..|s| - 1] == prefix + "/" + init;
      assert s[|s| - 1] == name[|name| - 1];
      assert init + [name[|name| - 1]] == name;
    }
  }

  // ---------------------------------------------------------------------------
  // Paths below a directory, as `shutil.rmtree` sees them

  /** The text before the last '/' of a path that has one: the directory holding its last segment. */
  function Parent(s: string): (r: string)
    requires '/' in s
    ensures s == r + "/" + LastSegment(s)
  {
    LastSegmentIsFinalSegment(s);
    var n := |LastSegment(s)|;
    assert n < |s|;
    assert s == s[..|s| - n - 1] + [s[|s| - n - 1]] + s[|s| - n..];
    s[..|s| - n - 1]
  }

  /** The directory holding `p + "/" + n`, for a name `n` without '/', is `p`. */
  lemma ParentOfChild(p: string, n: string)
    requires '/' !in n
    ensures '/' in p + "/" + n && Parent(p + "/" + n) == p && LastSegment(p + "/" + n) == n
  {
    var s := p + "/" + n;
    assert s[|p|] == '/';
    LastSegmentAfterSlash(p, n);
    assert s[..|s| - |n| - 1] == p;
  }

  /** `k` is the path `t` itself or a path inside the directory `t`. */
  predicate Within(k: string, t: string) {
    k == t || (|t| < |k| && k[..|t| + 1] == t + "/")
  }

  /** A path inside `t` sits in a directory that is `t` or is itself inside `t`. */
  lemma ParentStaysWithin(k: string, t: string)
    requires Within(k, t) && k != t
    ensures '/' in k && Within(Parent(k), t)
  {
    assert k[|t|] == (t + "/")[|t|] == '/';
    var p, n := Parent(k), LastSegment(k);
    assert |t| <= |p|;
    assert p == k[..|p|];
    if |p| > |t| {
      assert p[..|t| + 1] == k[..|t| + 1];
    }
  }

  /** Whatever lies inside `p` lies inside every directory that contains `p`. */
  lemma ChildStaysWithin(p: string, n: string, t: string)
    requires Within(p, t)
    ensures Within(p + "/" + n, t)
  {
    var c := p + "/" + n;
    if p == t {
      assert c[..|t| + 1] == t + "/";
    } else {
      assert c[..|t| + 1] == p[..|t| + 1];
    }
  }

  /** An entry `k + "/" + n` of directory `k` lies inside `t` only when it is `t` or `k` does. */
  lemma ChildWithinTarget(k: string, n: string, t: string)
    requires '/' !in n && Within(k + "/" + n, t)
    ensures k + "/" + n == t || Within(k, t)
  {
    var c := k + "/" + n;
    if c != t {
      assert c[|t|] == '/';
      assert |t| <= |k|;
      if |t| == |k| {
        assert k == c[..|t|];
      } else {
        assert k[..|t| + 1] == c[..|t| + 1];
      }
    }
  }

  /** An entry of a directory outside `t` lies outside `t` too, unless it is `t` itself. */
  lemma ChildOfOutside(k: string, n: string, t: string)
    requires '/' !in n && !Within(k, t) && k + "/" + n != t
    ensures !Within(k + "/" + n, t)
  {
    if Within(k + "/" + n, t) {
      ChildWithinTarget(k, n, t);
    }
  }
}
