/** The request handler of functions/app/main.go and the rows its "html"
    template emits: the storage prefix taken from the request path, the
    isDir and basename helpers, the base URL for object links, the listing
    page as a sequence of rows, the template's loops that build it, and the
    handler that ties them together. */
module Viewer {
  import opened GoStrings
  import opened Listing

  /** The settings read once at start-up (BUCKET_NAME, WEBSITE_HOSTING,
      HTTPS), passed explicitly. */
  datatype Config = Config(bucketName: string, webSiteHosting: bool, https: bool)

  /** The suffix that turns a bucket name into its storage endpoint. */
  const S3Endpoint := ".s3.amazonaws.com"

  // ---------------------------------------------------------------------
  // Prefix, isDir, basename

  /** The storage prefix of a request: its path with one leading '/'
      removed, if there is one. */
  function RequestPrefix(path: string): (p: string)
    ensures |path| - 1 <= |p| <= |path|
    ensures path == "/" + p || (p == path && (path == [] || path[0] != '/'))
  {
    TrimPrefix(path, "/")
  }

  /** Serving "/" + p asks for prefix p, whatever p is, even when p itself
      starts with '/'. */
  lemma RequestPrefixOfPath(p: string)
    ensures RequestPrefix("/" + p) == p
  {
    assert HasPrefix("/" + p, "/");
  }

  /** Only one slash goes: a path with two leading slashes keeps one. The
      deployed handler never sees such a path, because http.NewServeMux
      answers "//p" with a redirect to the cleaned path "/p". */
  lemma {:induction false} RequestPrefixRemovesOneSlash(p: string)
    ensures RequestPrefix("//" + p) == "/" + p
  {
    assert "//" + p == "/" + ("/" + p);
    RequestPrefixOfPath("/" + p);
  }

  /** The template's isDir helper: the key of a directory marker ends in '/'. */
  predicate IsDir(key: string)
    ensures IsDir(key) <==> key != [] && key[|key| - 1] == '/'
  {
    if key != [] then
      assert key[|key| - 1..] == [key[|key| - 1]];
      HasSuffix(key, "/")
    else
      HasSuffix(key, "/")
  }

  /** The template's basename helper: never empty; "/" only for a key made
      of slashes, and otherwise free of '/'; a key without '/' is its own
      basename. */
  function Basename(key: string): (name: string)
    ensures name != []
    ensures name == "/" <==> key != [] && AllSlashes(key)
    ensures name == "/" || '/' !in name
    ensures key != [] && '/' !in key ==> name == key
  {
    BaseShape(key);
    if key != [] && '/' !in key then
      BaseOfSegment(key);
      Base(key)
    else
      Base(key)
  }

  // ---------------------------------------------------------------------
  // Base URL

  /** The scheme of object links: https exactly when HTTPS is on. */
  function Scheme(cfg: Config): (scheme: string)
    ensures scheme == "https" <==> cfg.https
    ensures scheme == "http" <==> !cfg.https
  {
    if cfg.https then "https" else "http"
  }

  /** The host of object links: the bucket name itself with website hosting,
      the bucket's storage endpoint otherwise. It is empty only for website
      hosting with an empty bucket name. */
  function Host(cfg: Config): (host: string)
    ensures HasPrefix(host, cfg.bucketName)
    ensures host == "" <==> cfg.webSiteHosting && cfg.bucketName == ""
  {
    if cfg.webSiteHosting then cfg.bucketName
    else
      assert |cfg.bucketName + S3Endpoint| == |cfg.bucketName| + |S3Endpoint|;
      assert (cfg.bucketName + S3Endpoint)[..|cfg.bucketName|] == cfg.bucketName;
      cfg.bucketName + S3Endpoint
  }

  /** url.URL{Scheme: scheme, Host: host}.String(): "scheme:" and, only
      before a non-empty host, "//" and the host. */
  function UrlString(scheme: string, host: string): (u: string)
    ensures scheme != "" ==> HasPrefix(u, scheme + ":")
    ensures host != "" ==> HasSuffix(u, "//" + host)
    ensures host == "" ==> u == (if scheme != "" then scheme + ":" else "")
    ensures |u| == (if scheme != "" then |scheme| + 1 else 0) + (if host != "" then |host| + 2 else 0)
  {
    var s := if scheme != "" then scheme + ":" else "";
    var h := if host != "" then "//" + host else "";
    assert (s + h)[..|s|] == s && (s + h)[|s|..] == h;
    s + h
  }

  /** The base URL of object links. */
  function BaseUrl(cfg: Config): (u: string)
    ensures Host(cfg) != "" ==> u == Scheme(cfg) + "://" + Host(cfg)
    ensures Host(cfg) == "" ==> u == Scheme(cfg) + ":"
  {
    UrlString(Scheme(cfg), Host(cfg))
  }

  /** Two settings produce the same base URL only when they agree on the
      scheme and on the host: the URL loses nothing of either. */
  lemma {:induction false} BaseUrlDeterminesSchemeAndHost(a: Config, b: Config)
    requires BaseUrl(a) == BaseUrl(b)
    ensures a.https == b.https
    ensures Host(a) == Host(b)
  {
    var u := BaseUrl(a);
    assert u[4] == (if a.https then 's' else ':');
    assert u[4] == (if b.https then 's' else ':');
    var n := |Scheme(a)| + 1;
    assert u[..n] == Scheme(a) + ":";
    var rest := u[n..];
    assert Host(a) != "" ==> rest == "//" + Host(a);
    assert Host(b) != "" ==> rest == "//" + Host(b);
    assert Host(a) == "" ==> rest == "";
    assert Host(b) == "" ==> rest == "";
    if Host(a) != "" && Host(b) != "" {
      assert Host(a) == rest[2..] == Host(b);
    }
  }

  /** Bucket "b" on the storage endpoint over http. */
  lemma BaseUrlOfStorageEndpoint()
    ensures BaseUrl(Config("b", false, false)) == "http://b.s3.amazonaws.com"
  {
    var cfg := Config("b", false, false);
    var host := "b.s3.amazonaws.com";
    assert Host(cfg) == host by {
      assert Host(cfg) == "b" + S3Endpoint;
      assert |"b" + S3Endpoint| == |host|;
      assert "b" + S3Endpoint == host;
    }
    assert "http" + "://" + host == "http://b.s3.amazonaws.com";
  }

  /** Bucket "b" with website hosting over https. */
  lemma BaseUrlOfWebsiteHosting()
    ensures BaseUrl(Config("b", true, true)) == "https://b"
  {
    var cfg := Config("b", true, true);
    assert Host(cfg) == "b";
    assert Scheme(cfg) == "https";
  }

  // ---------------------------------------------------------------------
  // Rows of the listing page

  /** One link of the list group: the "../" up-link, the folder of a
      common prefix, or the file of a listed object with its link target.
      The text and the target the template writes for a row are Text() and
      Target(); a file row also shows its entry's size and time. */
  datatype Row =
    | UpLink
    | Folder(commonPrefix: string)
    | File(entry: Object, href: string)
  {
    function Text(): (t: string)
      ensures t != []
      ensures !File? ==> t == Target()
    {
      match this
      case UpLink => "../"
      case Folder(cp) => Basename(cp) + "/"
      case File(o, _) => Basename(o.key)
    }

    function Target(): (h: string)
      ensures !File? ==> h != [] && h[|h| - 1] == '/'
      ensures File? ==> h == href
    {
      match this
      case UpLink => "../"
      case Folder(cp) => Basename(cp) + "/"
      case File(_, h) => h
    }
  }

  /** What the template shows: the title, the page header and the rows. */
  datatype Page = Page(title: string, heading: string, rows: seq<Row>)

  /** The data the handler passes to the template. */
  datatype RenderContext = RenderContext(prefix: string, res: ListResult, baseUrl: string)

  function UpRows(prefix: string): seq<Row> {
    if prefix != "" then [UpLink] else []
  }

  function FolderRows(commonPrefixes: seq<string>): seq<Row> {
    seq(|commonPrefixes|, i requires 0 <= i < |commonPrefixes| => Folder(commonPrefixes[i]))
  }

  /** The file row of an entry: it shows the entry and links into the
      bucket. */
  function FileRow(o: Object, baseUrl: string): (r: Row)
    ensures r.File? && r.entry == o
  {
    File(o, baseUrl + "/" + o.key)
  }

  /** A file row shows the key's basename. Its link starts with the base
      URL and "/", and removing those gives back the key, so the link is
      exactly the base URL, "/" and the key. */
  lemma FileRowLinksKey(o: Object, baseUrl: string)
    ensures FileRow(o, baseUrl).Text() == Basename(o.key)
    ensures HasPrefix(FileRow(o, baseUrl).Target(), baseUrl + "/")
    ensures TrimPrefix(FileRow(o, baseUrl).Target(), baseUrl + "/") == o.key
  {
    var h := baseUrl + "/" + o.key;
    assert h[..|baseUrl + "/"|] == baseUrl + "/";
  }

  /** The rows one entry contributes: its file row, or none for a directory
      marker. */
  function EntryRows(o: Object, baseUrl: string): (rows: seq<Row>)
    ensures |rows| == if IsDir(o.key) then 0 else 1
  {
    if IsDir(o.key) then [] else [FileRow(o, baseUrl)]
  }

  /** The file rows: one per entry that is not a directory marker. */
  function FileRows(contents: seq<Object>, baseUrl: string): (rows: seq<Row>)
    ensures |rows| <= |contents|
  {
    if contents == [] then []
    else EntryRows(contents[0], baseUrl) + FileRows(contents[1..], baseUrl)
  }

  /** The rows of the list group, in page order. */
  function View(prefix: string, res: ListResult, baseUrl: string): seq<Row> {
    UpRows(prefix) + FolderRows(res.commonPrefixes) + FileRows(res.contents, baseUrl)
  }

  /** The positions of contents that are not directory markers. */
  function NonMarkerIndices(contents: seq<Object>): set<nat> {
    set i: nat | i < |contents| && !IsDir(contents[i].key)
  }

  // ---------------------------------------------------------------------
  // Properties of the file rows

  /** Listing two runs of contents one after the other gives the file rows
      of the first run, then those of the second: order is kept. */
  lemma {:induction false} FileRowsAppend(a: seq<Object>, b: seq<Object>, baseUrl: string)
    ensures FileRows(a + b, baseUrl) == FileRows(a, baseUrl) + FileRows(b, baseUrl)
  {
    if a == [] {
      assert a + b == b;
    } else {
      var h := EntryRows(a[0], baseUrl);
      assert (a + b)[0] == a[0];
      assert (a + b)[1..] == a[1..] + b;
      assert FileRows(a + b, baseUrl) == h + FileRows(a[1..] + b, baseUrl);
      FileRowsAppend(a[1..], b, baseUrl);
      AppendAssoc(h, FileRows(a[1..], baseUrl), FileRows(b, baseUrl));
      assert FileRows(a, baseUrl) == h + FileRows(a[1..], baseUrl);
    }
  }

  /** A single entry gives one row when it is not a directory marker and
      none when it is. */
  lemma FileRowsSingle(o: Object, baseUrl: string)
    ensures FileRows([o], baseUrl) == EntryRows(o, baseUrl)
  {
    assert [o][1..] == [];
  }

  /** A directory marker adds nothing to the page, wherever it stands and
      whatever its size and time. */
  lemma {:induction false} MarkerIsInvisible(a: seq<Object>, o: Object, b: seq<Object>, baseUrl: string)
    requires IsDir(o.key)
    ensures FileRows(a + [o] + b, baseUrl) == FileRows(a + b, baseUrl)
  {
    FileRowsAppend(a + [o], b, baseUrl);
    FileRowsAppend(a, [o], baseUrl);
    FileRowsSingle(o, baseUrl);
    FileRowsAppend(a, b, baseUrl);
  }

  /** Every file row belongs to an entry that is not a directory marker: its
      text is the entry's basename and its target the base URL, "/" and the
      key. */
  lemma {:induction false} FileRowsSound(contents: seq<Object>, baseUrl: string, r: Row)
    requires r in FileRows(contents, baseUrl)
    ensures exists i :: (0 <= i < |contents| && !IsDir(contents[i].key) && r == FileRow(contents[i], baseUrl))
    ensures r.File? && !IsDir(r.entry.key)
    ensures r.Text() == Basename(r.entry.key) && r.Target() == baseUrl + "/" + r.entry.key
  {
    var head := EntryRows(contents[0], baseUrl);
    var k: int;
    if r in head {
      k := 0;
      assert !IsDir(contents[0].key) && r == FileRow(contents[0], baseUrl);
    } else {
      FileRowsSound(contents[1..], baseUrl, r);
      var i :| 0 <= i < |contents[1..]| && !IsDir(contents[1..][i].key)
        && r == FileRow(contents[1..][i], baseUrl);
      k := i + 1;
      assert contents[1..][i] == contents[k];
    }
    assert 0 <= k < |contents| && !IsDir(contents[k].key) && r == FileRow(contents[k], baseUrl);
  }

  lemma FileRowIsFile(contents: seq<Object>, baseUrl: string, k: int)
    requires 0 <= k < |FileRows(contents, baseUrl)|
    ensures FileRows(contents, baseUrl)[k].File?
  {
    FileRowsSound(contents, baseUrl, FileRows(contents, baseUrl)[k]);
  }

  /** Every entry that is not a directory marker has its file row. */
  lemma {:induction false} FileRowsComplete(contents: seq<Object>, baseUrl: string, i: int)
    requires 0 <= i < |contents| && !IsDir(contents[i].key)
    ensures FileRow(contents[i], baseUrl) in FileRows(contents, baseUrl)
  {
    var k := FileRowsPosition(contents, baseUrl, i);
  }

  /** The file row of entry i stands at the index counting the rows of the
      entries before it. */
  lemma {:induction false} FileRowsPosition(contents: seq<Object>, baseUrl: string, i: int) returns (k: int)
    requires 0 <= i < |contents| && !IsDir(contents[i].key)
    ensures k == |FileRows(contents[..i], baseUrl)|
    ensures k < |FileRows(contents, baseUrl)| && FileRows(contents, baseUrl)[k] == FileRow(contents[i], baseUrl)
  {
    k := |FileRows(contents[..i], baseUrl)|;
    assert contents == contents[..i] + ([contents[i]] + contents[i + 1..]);
    FileRowsAppend(contents[..i], [contents[i]] + contents[i + 1..], baseUrl);
    FileRowsAppend([contents[i]], contents[i + 1..], baseUrl);
    FileRowsSingle(contents[i], baseUrl);
  }

  /** Entries that are not directory markers keep their listing order on
      the page. */
  lemma {:induction false} FileRowsOrder(contents: seq<Object>, baseUrl: string, i: int, j: int)
    requires 0 <= i < j < |contents|
    requires !IsDir(contents[i].key) && !IsDir(contents[j].key)
    ensures exists ki, kj :: (0 <= ki < kj < |FileRows(contents, baseUrl)|
                              && FileRows(contents, baseUrl)[ki] == FileRow(contents[i], baseUrl)
                              && FileRows(contents, baseUrl)[kj] == FileRow(contents[j], baseUrl))
  {
    var ki := FileRowsPosition(contents, baseUrl, i);
    var kj := FileRowsPosition(contents, baseUrl, j);
    assert ki < kj by {
      var c := contents[..j];
      assert c[..i] == contents[..i] && c[i] == contents[i];
      var k := FileRowsPosition(c, baseUrl, i);
    }
    assert 0 <= ki < kj < |FileRows(contents, baseUrl)|;
  }

  lemma NonMarkerIndicesSnoc(c: seq<Object>, o: Object)
    ensures NonMarkerIndices(c + [o])
         == NonMarkerIndices(c) + (if IsDir(o.key) then {} else {|c| as nat})
  {
    var c' := c + [o];
    forall i: nat | i < |c| ensures c'[i] == c[i] { }
  }

  /** There are as many file rows as entries that are not directory markers. */
  lemma {:induction false} FileRowsCount(contents: seq<Object>, baseUrl: string)
    ensures |FileRows(contents, baseUrl)| == |NonMarkerIndices(contents)|
    decreases |contents|
  {
    if contents == [] {
      assert NonMarkerIndices(contents) == {};
    } else {
      var n := |contents| - 1;
      var c, o := contents[..n], contents[n];
      assert contents == c + [o];
      FileRowsCount(c, baseUrl);
      var extra := if IsDir(o.key) then 0 else 1;
      assert |FileRows(contents, baseUrl)| == |FileRows(c, baseUrl)| + extra by {
        FileRowsAppend(c, [o], baseUrl);
        FileRowsSingle(o, baseUrl);
      }
      assert |NonMarkerIndices(contents)| == |NonMarkerIndices(c)| + extra by {
        NonMarkerIndicesSnoc(c, o);
        assert (n as nat) !in NonMarkerIndices(c);
      }
    }
  }

  // ---------------------------------------------------------------------
  // Properties of the page

  /** The "../" link is shown exactly when the prefix is not empty, and then
      it is the first row and no other row is one. */
  lemma ViewUpLink(prefix: string, res: ListResult, baseUrl: string)
    ensures UpLink in View(prefix, res, baseUrl) <==> prefix != ""
    ensures prefix != "" ==> View(prefix, res, baseUrl)[0] == UpLink
    ensures forall j :: 0 < j < |View(prefix, res, baseUrl)| ==> View(prefix, res, baseUrl)[j] != UpLink
  {
    var v, u := View(prefix, res, baseUrl), |UpRows(prefix)|;
    ViewLayout(prefix, res, baseUrl);
    assert forall j :: u <= j < |v| ==> v[j].Folder? || v[j].File?;
    if prefix != "" {
      assert v[0] == UpLink;
    } else {
      assert u == 0;
    }
  }

  /** The layout of the page: the up-link if any, then one folder row per
      common prefix in listing order, then the file rows; folder rows are
      exactly the rows in the middle band, file rows exactly those after
      it. */
  lemma ViewLayout(prefix: string, res: ListResult, baseUrl: string)
    ensures var v, u, n := View(prefix, res, baseUrl), |UpRows(prefix)|, |res.commonPrefixes|;
      && |v| == u + n + |FileRows(res.contents, baseUrl)|
      && (forall i :: 0 <= i < n ==> v[u + i] == Folder(res.commonPrefixes[i]))
      && v[u + n..] == FileRows(res.contents, baseUrl)
      && (forall j :: 0 <= j < |v| ==> (v[j].Folder? <==> u <= j < u + n))
      && (forall j :: 0 <= j < |v| ==> (v[j].File? <==> u + n <= j))
  {
    var v, u, n := View(prefix, res, baseUrl), |UpRows(prefix)|, |res.commonPrefixes|;
    var f := FileRows(res.contents, baseUrl);
    ViewBands(prefix, res, baseUrl);
    forall j | 0 <= j < |v| ensures (v[j].Folder? <==> u <= j < u + n) && (v[j].File? <==> u + n <= j) {
      if j < u {
        assert v[j] == UpLink;
      } else if j < u + n {
        assert v[j] == Folder(res.commonPrefixes[j - u]);
      } else {
        assert v[j] == f[j - u - n];
        FileRowIsFile(res.contents, baseUrl, j - u - n);
      }
    }
  }

  /** The three bands of the page, position by position. */
  lemma ViewBands(prefix: string, res: ListResult, baseUrl: string)
    ensures var v, u, n := View(prefix, res, baseUrl), |UpRows(prefix)|, |res.commonPrefixes|;
      && |v| == u + n + |FileRows(res.contents, baseUrl)|
      && (forall i :: 0 <= i < n ==> v[u + i] == Folder(res.commonPrefixes[i]))
      && v[..u] == UpRows(prefix)
      && v[u + n..] == FileRows(res.contents, baseUrl)
  {
    var v, u, n := View(prefix, res, baseUrl), |UpRows(prefix)|, |res.commonPrefixes|;
    var up, folders, f := UpRows(prefix), FolderRows(res.commonPrefixes), FileRows(res.contents, baseUrl);
    var w := up + folders;
    assert v == w + f;
    assert v[u + n..] == f && v[..u] == up by {
      assert |w| == u + n;
      assert w[..u] == up;
    }
    forall i | 0 <= i < n ensures v[u + i] == Folder(res.commonPrefixes[i]) {
      assert v[u + i] == w[u + i] == folders[i];
    }
  }

  /** The number of rows: the up-link when the prefix is not empty, one per
      common prefix and one per entry that is not a directory marker. */
  lemma ViewRowCount(prefix: string, res: ListResult, baseUrl: string)
    ensures |View(prefix, res, baseUrl)|
         == (if prefix != "" then 1 else 0) + |res.commonPrefixes| + |NonMarkerIndices(res.contents)|
  {
    FileRowsCount(res.contents, baseUrl);
  }

  /** The bucket root with one folder, such as "docs/", and nothing else:
      one folder row, whose text and target are the folder's name and "/". */
  lemma {:induction false} RootWithOneFolder(name: string, seg: string, baseUrl: string)
    requires seg != [] && '/' !in seg
    ensures View("", ListResult(name, [seg + "/"], []), baseUrl) == [Folder(seg + "/")]
    ensures Folder(seg + "/").Text() == seg + "/" && Folder(seg + "/").Target() == seg + "/"
  {
    var cp := seg + "/";
    assert View("", ListResult(name, [cp], []), baseUrl) == [Folder(cp)] by {
      assert FolderRows([cp]) == [Folder(cp)];
    }
    assert Base(cp) == seg by {
      assert cp == "" + seg + "/";
      BaseOfJoin("", seg, "/");
    }
  }

  /** The bucket root with one object, such as "readme.md" of 12 bytes, and
      nothing else: one file row, whose text is the key and whose target is
      the base URL, "/" and the key. */
  lemma {:induction false} RootWithOneFile(name: string, key: string, size: int, t: Instant, baseUrl: string)
    requires key != [] && '/' !in key
    ensures View("", ListResult(name, [], [Object(key, size, t)]), baseUrl)
         == [File(Object(key, size, t), baseUrl + "/" + key)]
    ensures File(Object(key, size, t), baseUrl + "/" + key).Text() == key
  {
    var o := Object(key, size, t);
    assert !IsDir(key) by {
      assert key[|key| - 1] in key;
    }
    assert View("", ListResult(name, [], [o]), baseUrl) == [FileRow(o, baseUrl)] by {
      FileRowsSingle(o, baseUrl);
      assert View("", ListResult(name, [], [o]), baseUrl) == [] + [] + FileRows([o], baseUrl);
    }
    assert FileRow(o, baseUrl).Text() == key by {
      BaseOfSegment(key);
    }
  }

  // ---------------------------------------------------------------------
  // Template execution and the handler

  lemma FolderRowsStep(cps: seq<string>, i: int)
    requires 0 <= i < |cps|
    ensures FolderRows(cps[..i + 1]) == FolderRows(cps[..i]) + [Folder(cps[i])]
  {
  }

  lemma FileRowsStep(contents: seq<Object>, i: int, baseUrl: string)
    requires 0 <= i < |contents|
    ensures FileRows(contents[..i + 1], baseUrl)
         == FileRows(contents[..i], baseUrl) + EntryRows(contents[i], baseUrl)
  {
    assert contents[..i + 1] == contents[..i] + [contents[i]];
    FileRowsAppend(contents[..i], [contents[i]], baseUrl);
    FileRowsSingle(contents[i], baseUrl);
  }

  /** Executes the template: the title and header, then the list group
      emitted row by row as the template's range loops do. */
  method Render(ctx: RenderContext) returns (page: Page)
    ensures page.title == ctx.res.name + "/" + ctx.prefix
    ensures page.heading == "s3://" + ctx.res.name + "/" + ctx.prefix
    ensures page.rows == View(ctx.prefix, ctx.res, ctx.baseUrl)
  {
    var cps, contents := ctx.res.commonPrefixes, ctx.res.contents;
    var rows: seq<Row> := [];
    if ctx.prefix != "" {
      rows := rows + [UpLink];
    }
    for i := 0 to |cps|
      invariant rows == UpRows(ctx.prefix) + FolderRows(cps[..i])
    {
      FolderRowsStep(cps, i);
      AppendAssoc(UpRows(ctx.prefix), FolderRows(cps[..i]), [Folder(cps[i])]);
      rows := rows + [Folder(cps[i])];
    }
    assert cps[..|cps|] == cps;
    ghost var folders := rows;
    for i := 0 to |contents|
      invariant rows == folders + FileRows(contents[..i], ctx.baseUrl)
    {
      FileRowsStep(contents, i, ctx.baseUrl);
      AppendAssoc(folders, FileRows(contents[..i], ctx.baseUrl), EntryRows(contents[i], ctx.baseUrl));
      if !IsDir(contents[i].key) {
        assert EntryRows(contents[i], ctx.baseUrl) == [FileRow(contents[i], ctx.baseUrl)];
        rows := rows + [FileRow(contents[i], ctx.baseUrl)];
      } else {
        assert EntryRows(contents[i], ctx.baseUrl) == [];
      }
    }
    assert contents[..|contents|] == contents;
    page := Page(ctx.res.name + "/" + ctx.prefix, "s3://" + ctx.res.name + "/" + ctx.prefix, rows);
  }

  /** What the client receives: the rendered page with status 200; or, with
      status 500, the listing error's text and a newline as http.Error
      writes them, possibly followed by a page the template rendered after
      that. */
  datatype Response =
    | Rendered(page: Page)
    | Failed(message: string)
    | FailedThenRendered(message: string, page: Page)
  {
    function Status(): nat {
      if Rendered? then 200 else 500
    }
  }

  /** The page the template renders from the empty result has no folder and
      no file rows: only the up-link, when the prefix is not empty. */
  lemma ViewOfEmptyResult(prefix: string, baseUrl: string)
    ensures View(prefix, EmptyResult, baseUrl) == UpRows(prefix)
    ensures |View(prefix, EmptyResult, baseUrl)| == if prefix != "" then 1 else 0
  {
    assert FolderRows([]) == [];
    assert View(prefix, EmptyResult, baseUrl) == UpRows(prefix) + [] + [];
  }

  /** The handler: takes the prefix from the path, asks the listing service
      (a parameter) for the folder under it with delimiter "/", and renders
      the result with links under the configured base URL. A failed listing
      is answered with its error text alone. */
  method Handle(cfg: Config, path: string, list: ListRequest -> Result<ListResult>)
    returns (req: ListRequest, resp: Response)
    ensures req == ListRequest(cfg.bucketName, "/", RequestPrefix(path))
    ensures resp.Rendered? <==> list(req).Ok?
    ensures list(req).Err? ==> resp == Failed(list(req).message) && resp.Status() == 500
    ensures list(req).Ok? ==> (resp.Status() == 200
                               && resp.page.title == list(req).value.name + "/" + req.prefix
                               && resp.page.heading == "s3://" + list(req).value.name + "/" + req.prefix
                               && resp.page.rows == View(req.prefix, list(req).value, BaseUrl(cfg)))
  {
    var prefix := RequestPrefix(path);
    req := ListRequest(cfg.bucketName, "/", prefix);
    var listed := list(req);
    if listed.Err? {
      resp := Failed(listed.message);
      return;
    }
    var scheme := if cfg.https then "https" else "http";
    var host := if cfg.webSiteHosting then cfg.bucketName else cfg.bucketName + S3Endpoint;
    var page := Render(RenderContext(prefix, listed.value, UrlString(scheme, host)));
    resp := Rendered(page);
  }

  /** The handler as the source has it: after reporting a failed listing it
      does not return, but renders the output value the listing call handed
      back with its error, the empty result, after the error text. A
      successful listing is handled as by Handle. */
  method HandleAsWritten(cfg: Config, path: string, list: ListRequest -> Result<ListResult>)
    returns (req: ListRequest, resp: Response)
    ensures req == ListRequest(cfg.bucketName, "/", RequestPrefix(path))
    ensures resp.Rendered? <==> list(req).Ok?
    ensures list(req).Err? ==> (resp.FailedThenRendered? && resp.message == list(req).message
                                && resp.Status() == 500
                                && resp.page.title == Unset + "/" + req.prefix
                                && resp.page.heading == "s3://" + Unset + "/" + req.prefix
                                && resp.page.rows == UpRows(req.prefix))
    ensures list(req).Ok? ==> (resp.Status() == 200
                               && resp.page.title == list(req).value.name + "/" + req.prefix
                               && resp.page.heading == "s3://" + list(req).value.name + "/" + req.prefix
                               && resp.page.rows == View(req.prefix, list(req).value, BaseUrl(cfg)))
  {
    var prefix := RequestPrefix(path);
    req := ListRequest(cfg.bucketName, "/", prefix);
    var listed := list(req);
    var res := if listed.Ok? then listed.value else EmptyResult;
    var scheme := if cfg.https then "https" else "http";
    var host := if cfg.webSiteHosting then cfg.bucketName else cfg.bucketName + S3Endpoint;
    var baseUrl := UrlString(scheme, host);
    var page := Render(RenderContext(prefix, res, baseUrl));
    if listed.Ok? {
      resp := Rendered(page);
    } else {
      ViewOfEmptyResult(prefix, baseUrl);
      resp := FailedThenRendered(listed.message, page);
    }
  }
}
