/** The parts of Go's standard library that the viewer relies on, written out:
    strings.HasPrefix, strings.HasSuffix, strings.TrimPrefix, strings.LastIndex
    (for a one-character separator) and path.Base. Strings are sequences of
    characters; Go works on bytes, which makes no difference for '/' here. */
module GoStrings {

  predicate HasPrefix(s: string, prefix: string) {
    |prefix| <= |s| && s[..|prefix|] == prefix
  }

  predicate HasSuffix(s: string, suffix: string) {
    |suffix| <= |s| && s[|s| - |suffix|..] == suffix
  }

  /** strings.TrimPrefix: s without the leading prefix, or s itself when it
      does not start with prefix. */
  function TrimPrefix(s: string, prefix: string): (r: string)
    ensures HasPrefix(s, prefix) ==> prefix + r == s
    ensures !HasPrefix(s, prefix) ==> r == s
  {
    if HasPrefix(s, prefix) then s[|prefix|..] else s
  }

  /** strings.LastIndex with a one-character separator: the index of the last
      occurrence of c in s, or -1 when there is none. */
  function LastIndex(s: string, c: char): (i: int)
    ensures -1 <= i < |s|
    ensures 0 <= i ==> s[i] == c
  {
    if |s| == 0 then -1
    else if s[|s| - 1] == c then |s| - 1
    else LastIndex(s[..|s| - 1], c)
  }

  /** No c follows the index LastIndex finds. */
  lemma {:induction false} LastIndexIsLast(s: string, c: char)
    ensures forall j :: LastIndex(s, c) < j < |s| ==> s[j] != c
  {
    if |s| > 0 && s[|s| - 1] != c {
      LastIndexIsLast(s[..|s| - 1], c);
    }
  }

  /** Any position holding c with no c after it is the one LastIndex finds. */
  lemma LastIndexUnique(s: string, c: char, k: int)
    requires -1 <= k < |s|
    requires 0 <= k ==> s[k] == c
    requires forall j :: k < j < |s| ==> s[j] != c
    ensures LastIndex(s, c) == k
  {
  }

  /** Concatenation is associative; stated once so that proofs can name the
      regrouping they need instead of rediscovering it element by element. */
  lemma AppendAssoc<T>(x: seq<T>, y: seq<T>, z: seq<T>)
    ensures x + (y + z) == (x + y) + z
  {
  }

  predicate AllSlashes(s: string) {
    forall i :: 0 <= i < |s| ==> s[i] == '/'
  }

  /** path.Base: "." for the empty path. Otherwise trailing slashes are
      dropped one at a time, a path made only of slashes ending up as "/",
      and what follows the last '/' is the result. */
  function Base(s: string): (r: string)
    ensures r != []
  {
    if s == [] then "."
    else if s == "/" then "/"
    else if s[|s| - 1] == '/' then Base(s[..|s| - 1])
    else s[LastIndex(s, '/') + 1..]
  }

  lemma {:induction false} LastIndexAfterDirectory(d: string, seg: string)
    requires d == [] || d[|d| - 1] == '/'
    requires '/' !in seg
    ensures LastIndex(d + seg, '/') == |d| - 1
  {
    var s := d + seg;
    forall j | |d| - 1 < j < |s| ensures s[j] != '/' {
      assert s[j] == seg[j - |d|];
    }
    if d != [] {
      assert s[|d| - 1] == '/';
    }
    LastIndexUnique(s, '/', |d| - 1);
  }

  lemma BaseOfEmpty()
    ensures Base("") == "."
  {
  }

  /** A path made only of slashes has base "/". */
  lemma {:induction false} BaseOfSlashes(s: string)
    requires s != [] && AllSlashes(s)
    ensures Base(s) == "/"
  {
    if |s| == 1 {
      assert s == "/";
    } else {
      assert s != "/";
      BaseOfSlashes(s[..|s| - 1]);
    }
  }

  /** A single segment is its own base. */
  lemma BaseOfSegment(seg: string)
    requires seg != [] && '/' !in seg
    ensures Base(seg) == seg
  {
    assert seg[|seg| - 1] in seg;
    LastIndexUnique(seg, '/', -1);
  }

  /** Going backwards: a directory part (empty or ending in '/'), a non-empty
      segment without '/' and any run of trailing slashes has that segment as
      its base. */
  lemma {:induction false} BaseOfJoin(d: string, seg: string, y: string)
    requires d == [] || d[|d| - 1] == '/'
    requires seg != [] && '/' !in seg
    requires AllSlashes(y)
    ensures Base(d + seg + y) == seg
    decreases |y|
  {
    var s := d + seg + y;
    if y == [] {
      assert s == d + seg;
      assert s[|s| - 1] != '/' by {
        assert s[|s| - 1] == seg[|seg| - 1];
      }
      assert s != "/";
      LastIndexAfterDirectory(d, seg);
      assert s[|d|..] == seg;
    } else {
      var y' := y[..|y| - 1];
      assert s != "/" && s[|s| - 1] == '/' by {
        assert |s| >= 2 && s[|s| - 1] == y[|y| - 1];
      }
      assert s[..|s| - 1] == d + seg + y';
      BaseOfJoin(d, seg, y');
    }
  }

  /** Going forwards: a path holding some character other than '/' has as its
      base a non-empty segment without '/', which the path ends with, up to
      trailing slashes, right after a directory part d; y is the run of
      trailing slashes. */
  lemma {:induction false} BaseIsLastSegment(s: string) returns (d: string, y: string)
    requires !AllSlashes(s)
    ensures Base(s) != [] && '/' !in Base(s)
    ensures s == d + Base(s) + y
    ensures d == [] || d[|d| - 1] == '/'
    ensures AllSlashes(y)
    decreases |s|
  {
    var k :| 0 <= k < |s| && s[k] != '/';
    assert s != "/";
    if s[|s| - 1] == '/' {
      var s' := s[..|s| - 1];
      assert s'[k] != '/';
      var y';
      d, y' := BaseIsLastSegment(s');
      y := y' + "/";
      assert s == s' + "/";
      AppendAssoc(d + Base(s'), y', "/");
    } else {
      var i := LastIndex(s, '/');
      LastIndexIsLast(s, '/');
      d, y := s[..i + 1], [];
      var r := s[i + 1..];
      assert '/' !in r by {
        forall j | 0 <= j < |r| ensures r[j] != '/' {
          assert r[j] == s[i + 1 + j];
        }
      }
      assert s == d + r + y;
    }
  }

  /** The base is "/" exactly for a non-empty path of slashes; otherwise it
      holds no '/' at all. */
  lemma BaseShape(s: string)
    ensures Base(s) == "/" <==> s != [] && AllSlashes(s)
    ensures Base(s) == "/" || '/' !in Base(s)
  {
    if s != [] && AllSlashes(s) {
      BaseOfSlashes(s);
    } else if s != [] {
      var d, y := BaseIsLastSegment(s);
      assert '/' in "/";
    }
  }

  /** Three sample paths: a file key in a folder, a folder key and a key at
      the root. */
  lemma BaseExamples()
    ensures Base("a/b/c.txt") == "c.txt"
    ensures Base("a/b/") == "b"
    ensures Base("file.txt") == "file.txt"
  {
    assert "a/b/c.txt" == "a/b/" + "c.txt" + "";
    BaseOfJoin("a/b/", "c.txt", "");
    assert "a/b/" == "a/" + "b" + "/";
    BaseOfJoin("a/", "b", "/");
    assert "file.txt" == "" + "file.txt" + "";
    BaseOfJoin("", "file.txt", "");
  }
}
