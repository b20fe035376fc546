/** Where the links of a listing page lead. Every href of the list group is
    a one-segment relative reference, a name and "/"; a browser resolves it
    against the path of the page, and the handler turns the resulting path
    back into a prefix. These lemmas follow the links through that round
    trip and relate the rows' texts to the keys, assuming the listing
    service groups keys by the delimiter as ListedUnder states. */
module Navigation {
  import opened GoStrings
  import opened Listing
  import opened Viewer

  /** The directory part of a path or prefix: everything up to and including
      its last '/', or nothing when it has none. */
  function DirectoryOf(s: string): (d: string)
    ensures HasPrefix(s, d)
    ensures d == [] || d[|d| - 1] == '/'
    ensures forall j :: |d| <= j < |s| ==> s[j] != '/'
  {
    LastIndexIsLast(s, '/');
    s[..LastIndex(s, '/') + 1]
  }

  /** The merge step of section 5.2.3 of RFC 3986 for a relative-path
      reference: the reference replaces what follows the last '/' of the
      base path. */
  function Merge(basePath: string, ref: string): string {
    DirectoryOf(basePath) + ref
  }

  /** The segments that the removal of dot segments (section 5.2.4 of RFC
      3986) acts on. */
  predicate IsDotSegment(seg: string) {
    seg == "." || seg == ".."
  }

  /** A directory path without its last segment; "/" stays "/". */
  function ParentOf(dir: string): (parent: string)
    ensures HasPrefix(dir, parent)
  {
    if |dir| <= 1 then dir
    else
      var p := DirectoryOf(dir[..|dir| - 1]);
      assert dir[..|p|] == dir[..|dir| - 1][..|p|];
      p
  }

  /** The path a browser requests when it follows the reference seg + "/"
      from a page whose own path has no dot segment: the merge, then the
      removal of dot segments, which leaves the merge alone unless seg is
      "." (the page's own directory) or ".." (its parent). This holds for a
      segment without '/'; for seg "/" the reference "//" is a
      network-path reference, which a browser does not merge, and the
      lemmas about folder rows leave that case out. */
  function FollowDirectoryLink(basePath: string, seg: string): (path: string)
    ensures IsDotSegment(seg) ==> HasPrefix(DirectoryOf(basePath), path)
    ensures !IsDotSegment(seg) ==> HasPrefix(path, DirectoryOf(basePath))
                                   && path[|DirectoryOf(basePath)|..] == seg + "/"
  {
    if seg == "." then DirectoryOf(basePath)
    else if seg == ".." then ParentOf(DirectoryOf(basePath))
    else
      var d := DirectoryOf(basePath);
      assert (d + (seg + "/"))[|d|..] == seg + "/";
      Merge(basePath, seg + "/")
  }

  /** The directory part of a request path is "/" and that of its prefix. */
  lemma {:induction false} DirectoryOfRequest(prefix: string)
    ensures DirectoryOf("/" + prefix) == "/" + DirectoryOf(prefix)
  {
    var s := "/" + prefix;
    var i := LastIndex(prefix, '/');
    LastIndexIsLast(prefix, '/');
    forall j | i + 1 < j < |s| ensures s[j] != '/' {
      assert s[j] == prefix[j - 1];
    }
    assert s[i + 1] == '/';
    LastIndexUnique(s, '/', i + 1);
    assert s[..i + 2] == "/" + prefix[..i + 1];
  }

  lemma EndsWithTwoSlashes(s: string)
    ensures HasSuffix(s, "//") <==> |s| >= 2 && s[|s| - 2] == '/' && s[|s| - 1] == '/'
  {
    if |s| >= 2 {
      assert s[|s| - 2..] == [s[|s| - 2], s[|s| - 1]];
    }
  }

  /** Merging a reference with the path of the page of prefix, then taking
      the prefix of the result, gives the directory part of prefix followed
      by the reference. */
  lemma {:induction false} MergeFromPage(prefix: string, ref: string)
    ensures RequestPrefix(Merge("/" + prefix, ref)) == DirectoryOf(prefix) + ref
  {
    DirectoryOfRequest(prefix);
    assert Merge("/" + prefix, ref) == "/" + (DirectoryOf(prefix) + ref);
    RequestPrefixOfPath(DirectoryOf(prefix) + ref);
  }

  /** Following the folder row of cp, whose name is neither a dot segment
      nor "/" (the href "//" of which names a host), from the page of
      prefix requests the directory part of prefix, cp's basename and "/". */
  lemma FollowFolderRow(prefix: string, cp: string)
    requires !IsDotSegment(Basename(cp)) && Basename(cp) != "/"
    ensures Folder(cp).Target() == Basename(cp) + "/"
    ensures RequestPrefix(FollowDirectoryLink("/" + prefix, Basename(cp)))
         == DirectoryOf(prefix) + Basename(cp) + "/"
  {
    MergeFromPage(prefix, Basename(cp) + "/");
    AppendAssoc(DirectoryOf(prefix), Basename(cp), "/");
  }

  /** The page of a directory prefix q + seg + "/" is its own directory. */
  lemma {:induction false} DirectoryOfDirectoryPage(q: string, seg: string)
    requires q == [] || q[|q| - 1] == '/'
    ensures DirectoryOf("/" + q + seg + "/") == "/" + q + seg + "/"
  {
    var s := "/" + q + seg + "/";
    LastIndexUnique(s, '/', |s| - 1);
  }

  /** The "../" link on the page of a folder q + seg + "/" requests the
      parent folder q. */
  lemma {:induction false} FollowUpLink(q: string, seg: string)
    requires q == [] || q[|q| - 1] == '/'
    requires seg != [] && '/' !in seg
    ensures UpLink.Target() == ".." + "/"
    ensures RequestPrefix(FollowDirectoryLink("/" + q + seg + "/", "..")) == q
  {
    var d := "/" + q + seg + "/";
    DirectoryOfDirectoryPage(q, seg);
    assert d[..|d| - 1] == ("/" + q) + seg;
    assert ("/" + q)[|"/" + q| - 1] == '/';
    LastIndexAfterDirectory("/" + q, seg);
    assert ParentOf(d) == "/" + q;
    RequestPrefixOfPath(q);
  }

  /** A run without '/' that starts at the end of prefix still has none when
      it is taken from the start of prefix's last segment instead. */
  lemma NoSlashFromDirectory(prefix: string, s: string, n: int)
    requires HasPrefix(s, prefix) && |prefix| <= n <= |s|
    requires '/' !in s[|prefix|..n]
    ensures '/' !in s[|DirectoryOf(prefix)|..n]
  {
    var d := DirectoryOf(prefix);
    forall k | |d| <= k < n ensures s[k] != '/' {
      if k < |prefix| {
        assert s[k] == prefix[k];
      } else {
        assert s[k] == s[|prefix|..n][k - |prefix|];
      }
    }
    assert forall k :: 0 <= k < n - |d| ==> s[|d|..n][k] == s[|d| + k];
  }

  /** Following the folder row of a common prefix from the page of prefix
      requests exactly that common prefix, and the row's text is the
      common prefix's name relative to the page's directory, provided the
      folder's own name is neither empty (a common prefix "/" or one ending
      in "//" has an empty name) nor a dot segment. */
  lemma {:induction false} FolderLinkEntersCommonPrefix(prefix: string, cp: string)
    requires IsCommonPrefixOf(prefix, cp)
    requires cp != "/" && !HasSuffix(cp, "//")
    requires !IsDotSegment(Basename(cp))
    ensures Folder(cp).Text() == cp[|DirectoryOf(prefix)|..]
    ensures Folder(cp).Target() == Basename(cp) + "/"
    ensures RequestPrefix(FollowDirectoryLink("/" + prefix, Basename(cp))) == cp
  {
    var d := DirectoryOf(prefix);
    var n := |cp| - 1;
    assert cp[..|d|] == d;
    assert |d| < n by {
      EndsWithTwoSlashes(cp);
      if d != [] {
        assert cp[|d| - 1] == d[|d| - 1];
      }
    }
    var seg := cp[|d|..n];
    assert seg != [] && '/' !in seg by {
      NoSlashFromDirectory(prefix, cp, n);
    }
    assert cp == d + seg + "/" && cp[|d|..] == seg + "/";
    assert Basename(cp) == seg by {
      BaseOfJoin(d, seg, "/");
    }
    FollowFolderRow(prefix, cp);
  }

  /** The folder link of a common prefix with an empty name does not lead
      to it. On the page of q + seg + "/" (keys such as "a//x" under "a/"
      are grouped into the common prefix "a//"), path.Base drops both
      trailing slashes of q + seg + "//", so the link shows seg + "/" and
      leads one level deeper, to q + seg + "/" + seg + "/". */
  lemma {:induction false} FolderLinkWithEmptyName(q: string, seg: string)
    requires q == [] || q[|q| - 1] == '/'
    requires seg != [] && '/' !in seg && !IsDotSegment(seg)
    ensures var p := q + seg + "/";
      && IsCommonPrefixOf(p, p + "/")
      && Folder(p + "/").Target() == seg + "/"
      && RequestPrefix(FollowDirectoryLink("/" + p, Basename(p + "/"))) == p + seg + "/"
      && p + seg + "/" != p + "/"
  {
    var p := q + seg + "/";
    assert IsCommonPrefixOf(p, p + "/") by {
      assert (p + "/")[..|p|] == p;
    }
    assert Basename(p + "/") == seg by {
      assert p + "/" == q + seg + "//";
      BaseOfJoin(q, seg, "//");
    }
    assert DirectoryOf(p) == p by {
      LastIndexUnique(p, '/', |p| - 1);
    }
    FollowFolderRow(p, p + "/");
    assert |p + seg + "/"| != |p + "/"|;
  }

  /** The common prefix "/" at the bucket root (keys such as "/x") is a
      true common prefix whose name is empty, yet path.Base gives "/" for
      it, so its href is "//". That is a network-path reference (section
      4.2 of RFC 3986): it names a host, not a folder of this bucket, and
      FollowFolderRow excludes it. */
  lemma RootSlashFolder()
    ensures IsCommonPrefixOf("", "/")
    ensures Basename("/") == "/"
    ensures Folder("/").Target() == "//"
  {
    assert "/"[0..0] == [];
  }

  /** A folder named "." (keys such as "a/./x" under "a/" are grouped into
      the common prefix "a/./") links back to the page it is shown on. */
  lemma {:induction false} FolderLinkNamedDot(q: string, seg: string)
    requires q == [] || q[|q| - 1] == '/'
    requires seg != [] && '/' !in seg && !IsDotSegment(seg)
    ensures var p := q + seg + "/";
      && IsCommonPrefixOf(p, p + "./")
      && Folder(p + "./").Target() == "./"
      && RequestPrefix(FollowDirectoryLink("/" + p, Basename(p + "./"))) == p
  {
    var p := q + seg + "/";
    var cp := p + "./";
    assert IsCommonPrefixOf(p, cp) by {
      assert cp[..|p|] == p && cp[|p|..|cp| - 1] == ".";
    }
    assert RequestPrefix(FollowDirectoryLink("/" + p, ".")) == p by {
      assert "/" + p == "/" + q + seg + "/";
      DirectoryOfDirectoryPage(q, seg);
      RequestPrefixOfPath(p);
    }
    assert Base(cp) == "." by {
      assert cp == p + "." + "/";
      BaseOfJoin(p, ".", "/");
    }
  }

  /** A folder named ".." (keys such as "a/../x" under "a/" are grouped
      into the common prefix "a/../") has the href of the up-link and leads
      to the parent folder instead of to itself. */
  lemma {:induction false} FolderLinkNamedDotDot(q: string, seg: string)
    requires q == [] || q[|q| - 1] == '/'
    requires seg != [] && '/' !in seg && !IsDotSegment(seg)
    ensures var p := q + seg + "/";
      && IsCommonPrefixOf(p, p + "../")
      && Folder(p + "../").Target() == UpLink.Target()
      && RequestPrefix(FollowDirectoryLink("/" + p, Basename(p + "../"))) == q
  {
    var p := q + seg + "/";
    var cp := p + "../";
    assert IsCommonPrefixOf(p, cp) by {
      assert cp[..|p|] == p && cp[|p|..|cp| - 1] == "..";
    }
    assert RequestPrefix(FollowDirectoryLink("/" + p, "..")) == q by {
      assert "/" + p == "/" + q + seg + "/";
      FollowUpLink(q, seg);
    }
    assert Base(cp) == ".." by {
      assert cp == p + ".." + "/";
      BaseOfJoin(p, "..", "/");
    }
  }

  /** A file row's text is the object's key relative to the page's
      directory. */
  lemma {:induction false} FileTextIsRelativeKey(prefix: string, key: string)
    requires IsDirectChild(prefix, key) && !IsDir(key)
    ensures Basename(key) == key[|DirectoryOf(prefix)|..]
  {
    var d := DirectoryOf(prefix);
    NoSlashFromDirectory(prefix, key, |key|);
    assert key[..|d|] == d;
    var seg := key[|d|..];
    assert seg != [];
    assert key == d + seg + "";
    BaseOfJoin(d, seg, "");
  }

  /** In a delimited listing the only directory marker that can appear
      among the contents is the folder's own. */
  lemma MarkerIsOwnFolder(prefix: string, key: string)
    requires IsDirectChild(prefix, key)
    ensures IsDir(key) <==> key == prefix && IsDir(prefix)
  {
    if IsDir(key) {
      var n := |key| - 1;
      assert key[n] == '/';
      assert key == key[..|prefix|];
    }
  }

  /** On the page of a delimited listing, every folder row links to its own
      common prefix, unless the folder's name is empty or a dot segment. */
  lemma {:induction false} ListedFolderLinks(prefix: string, res: ListResult, baseUrl: string, i: int)
    requires ListedUnder(prefix, res)
    requires 0 <= i < |res.commonPrefixes|
    requires res.commonPrefixes[i] != "/" && !HasSuffix(res.commonPrefixes[i], "//")
    requires !IsDotSegment(Basename(res.commonPrefixes[i]))
    ensures var row := View(prefix, res, baseUrl)[|UpRows(prefix)| + i];
      && row == Folder(res.commonPrefixes[i])
      && row.Target() == Basename(res.commonPrefixes[i]) + "/"
      && RequestPrefix(FollowDirectoryLink("/" + prefix, Basename(res.commonPrefixes[i])))
         == res.commonPrefixes[i]
  {
    ViewLayout(prefix, res, baseUrl);
    var cp := res.commonPrefixes[i];
    assert cp in res.commonPrefixes;
    FolderLinkEntersCommonPrefix(prefix, cp);
  }
}
