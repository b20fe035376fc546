# ridge-s3viewer: a verified model of the listing handler

ridge-s3viewer serves an HTML index of an S3 bucket. A request path names a
"folder" of the bucket. The handler turns the path into a storage prefix and
asks S3 for a delimited listing (delimiter "/") under that prefix. It then
renders one page: an optional `../` link, one link per common prefix (a
sub-folder), and one link per object that is not a directory marker. Object
links point into the bucket's storage endpoint or its website-hosting
endpoint, over http or https, as configured.

This project models that handler, `functions/app/main.go`, in Dafny:

- `gostrings.dfy` (module `GoStrings`) writes out the Go library functions
  the handler relies on: `strings.HasPrefix`, `strings.HasSuffix`,
  `strings.TrimPrefix`, `strings.LastIndex` and `path.Base`. It proves what
  Go documents for `path.Base`.
- `listing.dfy` (module `Listing`) holds the values exchanged with the
  listing service: the request, the result and its objects. The predicate
  `ListedUnder` states how a delimited listing groups keys.
- `viewer.dfy` (module `Viewer`) has the handler's pieces:
  - the prefix taken from the request path;
  - the template helpers `isDir` and `basename`;
  - the base URL of object links;
  - the page as an abstract sequence of rows (`View`), with its properties;
  - the template's two range loops, as the method `Render`;
  - the handler, with the listing service as a function parameter and the
    three settings as a `Config` value: `HandleAsWritten` as the source has
    it, and `Handle` with the return after a failed listing that the source
    misses (see "## Findings").
- `navigation.dfy` (module `Navigation`) follows the page's relative folder
  links. It resolves a link as a browser does under RFC 3986: the merge of
  section 5.2.3, then the removal of dot segments of section 5.2.4. It then
  maps the path back to a prefix the way the handler does. It proves that a
  folder link requests exactly its common prefix, with the three exceptions
  below. Folder names holding ':', '?', '#' or '%' are also outside what it
  proves (see "## Left out").
  - a folder whose name is empty: a common prefix ending in `//` leads one
    level deeper, and the common prefix `/` at the bucket root (keys such as
    `/x`) gets the href `//`, a network-path reference that names a host
    rather than a folder and that the model does not resolve;
  - a folder named `.` leads back to the page itself;
  - a folder named `..` leads to the parent folder, like the `../` link.

Where the code and the behaviour one would expect from the description of
the viewer differ, the model follows the code:

- The base URL comes from Go's `url.URL.String`. That writes `//` only before
  a non-empty host. With website hosting on and an empty bucket name, the
  base URL is `http:` or `https:`, not `scheme://`. `BaseUrl` states both
  cases.
- An object such as `docs/a.txt` listed under the root prefix would get a
  file row. Nothing in the handler or the template filters deeper keys. Only
  the listing service's grouping keeps such keys off the page, and lemmas
  that need it assume it as `ListedUnder`.

## Model

| member | source | states |
|---|---|---|
| GoStrings.TrimPrefix | functions/app/main.go:105 | With the prefix present, prefix + result is the input. Without it, the input comes back unchanged. |
| GoStrings.LastIndex | functions/app/main.go:95-97 | The result is -1 or an index in range, and at that index the separator stands. |
| GoStrings.LastIndexIsLast | functions/app/main.go:95-97 | No separator follows the index `LastIndex` returns. |
| GoStrings.LastIndexUnique | functions/app/main.go:95-97 | A separator position (or -1) with no separator after it is exactly what `LastIndex` returns. |
| GoStrings.Base | functions/app/main.go:95-97 | `path.Base` never returns the empty string. |
| GoStrings.BaseOfEmpty | functions/app/main.go:95-97 | The base of the empty path is ".". |
| GoStrings.BaseOfSlashes | functions/app/main.go:95-97 | A non-empty path of slashes only has base "/". |
| GoStrings.BaseOfSegment | functions/app/main.go:95-97 | A non-empty segment without '/' is its own base. |
| GoStrings.BaseOfJoin | functions/app/main.go:95-97 | For a directory part, then a segment without '/', then any run of trailing slashes, the base is that segment. |
| GoStrings.BaseShape | functions/app/main.go:95-97 | The base is "/" exactly for a non-empty path of slashes only. Every other base holds no '/'. |
| GoStrings.BaseIsLastSegment | functions/app/main.go:95-97 | For any path with a character other than '/', the base is non-empty and has no '/'. The path is a directory part, then the base, then only slashes. |
| GoStrings.BaseExamples | functions/app/main.go:95-97 | `a/b/c.txt` gives `c.txt`, `a/b/` gives `b` and `file.txt` gives `file.txt`. |
| Viewer.RequestPrefix | functions/app/main.go:105 | The path is "/" + prefix, or it has no leading '/' and is the prefix itself. At most one character is removed. |
| Viewer.RequestPrefixOfPath | functions/app/main.go:105 | Serving "/" + p asks for prefix p, for every p. |
| Viewer.RequestPrefixRemovesOneSlash | functions/app/main.go:105 | Of two leading slashes, only one is removed. (`http.NewServeMux` redirects such a path before the handler sees it.) |
| Viewer.IsDir | functions/app/main.go:89-91 | `isDir(k)` holds if and only if k is non-empty and its last character is '/'. |
| Viewer.Basename | functions/app/main.go:95-97 | The basename is never empty. It is "/" exactly for a non-empty key of slashes only, and otherwise holds no '/'. A non-empty key without '/' is its own basename. |
| Viewer.Scheme | functions/app/main.go:118-122 | The scheme is "https" exactly when HTTPS is on, and "http" exactly when it is off. |
| Viewer.Host | functions/app/main.go:123-127 | The host starts with the bucket name. It is empty exactly when website hosting is on and the bucket name is empty. |
| Viewer.UrlString | functions/app/main.go:117-132 | The URL starts with scheme + ":" when there is a scheme and ends with "//" + host when there is a host. Without a host nothing follows the scheme part. Its length is that of those parts. |
| Viewer.BaseUrl | functions/app/main.go:117-132 | With a non-empty host the base URL is scheme + "://" + host. With an empty host it is scheme + ":". |
| Viewer.BaseUrlDeterminesSchemeAndHost | functions/app/main.go:117-132 | Two settings giving the same base URL agree on the https flag and on the host. |
| Viewer.BaseUrlOfStorageEndpoint | functions/app/main.go:117-127 | Bucket "b", no website hosting, no HTTPS gives `http://b.s3.amazonaws.com`. |
| Viewer.BaseUrlOfWebsiteHosting | functions/app/main.go:117-127 | Bucket "b" with website hosting and HTTPS gives `https://b`. |
| Viewer.Row.Text | functions/app/main.go:43-59 | A row's text is never empty. For the up-link and folder rows it is their href. |
| Viewer.Row.Target | functions/app/main.go:43-56 | The href of the up-link and of folder rows is non-empty and ends in '/'. A file row's href is the one it was built with. |
| Viewer.FileRow | functions/app/main.go:56-59 | A file row is a file link that shows its own object. |
| Viewer.FileRowLinksKey | functions/app/main.go:56-59 | A file row shows the key's basename. Its href starts with base URL + "/", and removing that gives back the key, so the href is exactly base URL + "/" + key. |
| Viewer.EntryRows | functions/app/main.go:54-63 | An object contributes no row when its key is a directory marker, and exactly one otherwise. |
| Viewer.FileRows | functions/app/main.go:53-64 | There are never more file rows than listed objects. |
| Viewer.FileRowsAppend | functions/app/main.go:53-64 | The file rows of two runs of objects are those of the first run, then those of the second. |
| Viewer.FileRowsSingle | functions/app/main.go:54-63 | One object gives its file row, or nothing when it is a directory marker. |
| Viewer.MarkerIsInvisible | functions/app/main.go:54-55 | Removing a directory marker, wherever it stands and whatever its size and time, leaves the file rows unchanged. |
| Viewer.FileRowsSound | functions/app/main.go:53-64 | Every file row belongs to some listed object that is not a marker. Its text is the key's basename and its target is base URL + "/" + key. |
| Viewer.FileRowsComplete | functions/app/main.go:53-64 | Every object that is not a marker has its file row. |
| Viewer.FileRowsPosition | functions/app/main.go:53-64 | The file row of object i stands at the count of the file rows of the objects before it. |
| Viewer.FileRowsOrder | functions/app/main.go:53-64 | Two non-marker objects keep their listing order among the file rows. |
| Viewer.FileRowsCount | functions/app/main.go:53-64 | The number of file rows is the number of objects whose key does not end in '/'. |
| Viewer.ViewUpLink | functions/app/main.go:42-47 | The `../` row appears if and only if the prefix is non-empty. It is then the first row, and no other row is one. |
| Viewer.View | functions/app/main.go:42-64 | The rows of the list group in page order: up-link, folder rows, file rows. It carries no contract of its own; `ViewUpLink`, `ViewLayout` and `ViewRowCount` state its properties. |
| Viewer.ViewLayout | functions/app/main.go:42-64 | A non-empty prefix gives the up-link first. Then comes one folder row per common prefix, in listing order, then the file rows. Folder rows fill exactly the middle band and file rows exactly the rest. |
| Viewer.ViewRowCount | functions/app/main.go:42-64 | The row count is (1 if the prefix is non-empty, else 0) + the common prefixes + the objects that are not markers. |
| Viewer.RootWithOneFolder | functions/app/main.go:48-52 | At the root, a listing with the one common prefix `seg/` shows one folder row, with text and target `seg/`. |
| Viewer.RootWithOneFile | functions/app/main.go:53-64 | At the root, a listing with one object `key` (no '/') shows one file row: text `key`, target base URL + "/" + key, size and time kept. |
| Viewer.Render | functions/app/main.go:31-64 | The template's loops emit exactly the rows of `View`. The title is bucket + "/" + prefix and the header is "s3://" + bucket + "/" + prefix. |
| Viewer.ViewOfEmptyResult | functions/app/main.go:42-64 | The page of an empty result has no folder and no file rows: only the up-link, when the prefix is not empty. |
| Viewer.Handle | functions/app/main.go:104-133 | The listing request is (bucket, "/", prefix of the path). A failed listing gives status 500 with the error text alone. A successful one gives status 200, title bucket + "/" + prefix, that header, and the rows of `View` under `BaseUrl(cfg)`. |
| Viewer.HandleAsWritten | functions/app/main.go:104-133 | The same request, and the same response to a successful listing, as `Handle`. A failed listing gives status 500, the error text, and then a whole page rendered from the empty result: title `<nil>/` + prefix, header `s3://<nil>/` + prefix, and only the up-link, when the prefix is not empty. |
| Navigation.DirectoryOf | functions/app/main.go:49 | The directory part of a path is a prefix of the path. It is empty or ends in '/', and no '/' follows it. |
| Navigation.ParentOf | functions/app/main.go:43 | The parent of a directory path is a prefix of it. |
| Navigation.FollowDirectoryLink | functions/app/main.go:43-49 | Following the href seg + "/" never goes below the page's directory when seg is "." or "..". For any other seg the path is the page's directory followed by exactly seg + "/". |
| Navigation.MergeFromPage | functions/app/main.go:104-105 | Merging a reference ref with the path of the page of prefix p, then taking the prefix, gives DirectoryOf(p) + ref. |
| Navigation.FollowFolderRow | functions/app/main.go:48-52 | Following the folder row of cp, when its name is neither a dot segment nor "/", from the page of p requests DirectoryOf(p) + basename(cp) + "/". |
| Navigation.DirectoryOfDirectoryPage | functions/app/main.go:104-105 | The path of the page of a folder q + seg + "/" is its own directory. |
| Navigation.FollowUpLink | functions/app/main.go:42-47 | The `../` link on the page of a folder q + seg + "/" requests the parent folder q. |
| Navigation.FolderLinkEntersCommonPrefix | functions/app/main.go:48-52 | For a common prefix of p whose folder name is neither empty nor a dot segment, the link is that name and "/", and it requests exactly that common prefix. Its text is the common prefix relative to p's directory. |
| Navigation.FolderLinkWithEmptyName | functions/app/main.go:49-50 | The common prefix p + "/" of a page p = q + seg + "/" is a true common prefix. Its link leads to p + seg + "/" instead, because `path.Base` drops both trailing slashes. |
| Navigation.RootSlashFolder | functions/app/main.go:48-50 | At the bucket root, "/" is a true common prefix. Its basename is "/", so its folder href is "//". |
| Navigation.FolderLinkNamedDot | functions/app/main.go:48-52 | The common prefix p + "./" of a page p = q + seg + "/" is a true common prefix. Its href is "./", and it leads back to p. |
| Navigation.FolderLinkNamedDotDot | functions/app/main.go:48-52 | The common prefix p + "../" of a page p = q + seg + "/" is a true common prefix. Its href is that of the up-link, and it leads to the parent q. |
| Navigation.FileTextIsRelativeKey | functions/app/main.go:59 | For an object directly under p, the file row's text is its key relative to p's directory. |
| Navigation.MarkerIsOwnFolder | functions/app/main.go:54 | In a delimited listing of p, the only possible directory marker among the objects is p itself. |
| Navigation.ListedFolderLinks | functions/app/main.go:48-52 | Given the listing service's grouping, the folder row of common prefix i stands right after the up-link rows and the earlier folders. When its name is neither empty nor a dot segment, it leads to that common prefix. |

## Left out

- The S3 session and `svc.ListObjects` are a network call to a foreign service. The listing is the function parameter `list` of `Handle`, and the service's delimiter grouping is the assumption `ListedUnder`.
- Pagination is not modelled: only the one result page the service returns is shown.
- `ridge.Run` and `http.NewServeMux` are hosting plumbing.
- Reading `BUCKET_NAME`, `WEBSITE_HOSTING` and `HTTPS` with `os.Getenv` and `strconv.ParseBool` is environment I/O. The three settings are the `Config` parameter.
- The `bytes` helper (`humanize.Bytes`) is a third-party, floating-point formatter. So is the conversion of the size to `uint64`. The size is an opaque integer kept in the file row.
- The formatting of `LastModified` is library formatting. The time is an opaque value kept in the file row.
- `html/template` parsing, HTML escaping and URL escaping of hrefs are library behaviour. So is the host escaping inside `url.URL.String`. Rows are abstract records with a text and a target, not HTML.
- Response headers are not modelled. That covers the `Content-Type` set after `http.Error` has written its headers, and what the hosting adapter does with a header changed after that. The status and body of the error path are modelled.
- `log.Println` is logging.
- HandleAsWritten: assumes that a failed `ListObjects` call hands back an empty, non-nil output together with its error, as aws-sdk-go v1 does. The SDK is not part of this model. With a nil output the template would stop at `.res.Name` instead.
- HandleAsWritten: the `<nil>` the template prints for the unset bucket name is written unescaped. The HTML escaping of `html/template` is left out (see above).
- FollowDirectoryLink: only a page path without dot segments and without `//` is modelled. `http.NewServeMux` answers other paths with a redirect to the cleaned path, so the handler never serves them.
- FollowDirectoryLink: the href `//` of the common prefix `/` is a network-path reference (section 4.2 of RFC 3986). The model does not resolve network-path references: for seg `/` the function still merges `//` like a path, which no browser does, so `FollowFolderRow` and the lemmas built on it exclude a folder named `/`, and `RootSlashFolder` only states the href.
- FollowDirectoryLink: `ridge.Run` mounts the mux under `/viewer` and strips that before the handler runs. The lemmas take `"/" + prefix` as the page's path within the mount. Every link they follow is relative and stays inside the mount, so the prefixes it requests are the same.
- FollowDirectoryLink: a folder name holding ':', '?', '#' or '%' is taken literally. In a URL those characters have a meaning of their own, and `html/template` may rewrite such an href; the model follows neither.
- The unused `hello` helper is dead code.
- Strings are sequences of characters, not bytes. The handler only ever looks for '/', which is the same in both.

## Findings

| source | as written | input that shows it | evidently intended | confidence | as-written member | corrected member |
|---|---|---|---|---|---|---|
| functions/app/main.go:112-116 | After `http.Error` reports a failed listing, the handler does not return. It runs the template on the output the failed call handed back, an empty result, and writes a whole page after the error text. | A request for `/a/` whose listing fails with error text `AccessDenied`: the body is `AccessDenied`, a newline, then a page titled `<nil>/a/` with only the `../` link. | Return right after reporting the error, so that the body is the error text alone. | medium (rests on the SDK's error-path output); not executed | Viewer.HandleAsWritten, Viewer.ViewOfEmptyResult | Viewer.Handle |
