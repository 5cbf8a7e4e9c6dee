/** MangaFox chapter ids: printed from a chapter link, read back when the chapter is fetched. */
module MangaFox {
  import opened GoStrings
  import opened Options
  import opened Sequences

  datatype Url = Url(scheme: string, host: string, path: string)

  /** net/url's Parse; None is a parse error. */
  type Parser = string -> Option<Url>

  /** All that is needed of the parser: a text with exactly one leading slash names no scheme and no host. */
  ghost predicate ReadsPaths(parse: Parser) {
    forall s: string :: "/" <= s && !("//" <= s) && parse(s).Some? ==> parse(s).value.scheme == parse(s).value.host == ""
  }

  // ----- What the code computes -----

  /** The text after the first occurrence of "://". */
  function AfterScheme(s: string): Option<string> {
    if "://" <= s then Some(s[3..]) else if s == "" then None else AfterScheme(s[1..])
  }

  function StripHost(parse: Parser, s: string): string {
    var u := parse(s);
    if u.Some? && (u.value.scheme != "" || u.value.host != "") then u.value.path
    else
      var rest := AfterScheme(s);
      if rest.Some? && '/' in rest.value then BeforeIsPrefix(rest.value, '/'); rest.value[|Before(rest.value, '/')|..] else s
  }

  function StripPrefix(s: string, prefix: string): string {
    if prefix <= s then Trim(s[|prefix|..], '/') else s
  }

  function ExtractSlug(parse: Parser, rawID: string): string {
    StripPrefix(Trim(StripHost(parse, TrimSpace(rawID)), '/'), "manga/")
  }

  function StripManga(s: string, slug: string): string {
    var path := StripPrefix(Trim(s, '/'), "manga/");
    if slug != "" then StripPrefix(path, slug + "/") else path
  }

  predicate Skipped(part: string) {
    part == "" || part == "1.html" || HasSuffix(part, ".html")
  }

  function Wanted(parts: seq<string>): seq<string> {
    if parts == [] then []
    else Wanted(parts[..|parts| - 1]) + if Skipped(parts[|parts| - 1]) then [] else [parts[|parts| - 1]]
  }

  function CleanID(parse: Parser, href: string, slug: string): string {
    var path := StripManga(StripHost(parse, TrimSpace(href)), slug);
    var wanted := Wanted(Split(path, '/'));
    if wanted == [] then path else Join(wanted, '-')
  }

  function StripPage(s: string): string {
    if HasSuffix(s, "/1.html") then TrimSuffix(s, "/1.html") else TrimSuffix(s, ".html")
  }

  function ResolveURL(base: string, path: string): string {
    if HasPrefix(path, "http://") || HasPrefix(path, "https://") then path
    else if HasPrefix(path, "//") then "https:" + path
    else TrimRight(base, '/') + "/" + TrimLeft(path, '/')
  }

  /** The path under the manga that a chapter id stands for. */
  function ChapterPath(ref: string, slug: string): string {
    ReplaceAll(StripPage(StripManga(ReplaceAll(ref, '~', '/'), slug)), '-', '/')
  }

  function ChapterURL(parse: Parser, base: string, mangaRef: string, chapterRef: string): string {
    var ref := TrimSpace(chapterRef);
    var slug := ExtractSlug(parse, mangaRef);
    if HasPrefix(ref, "http://") || HasPrefix(ref, "https://") then ref
    else
      var folder := if slug != "" then "/manga/" + slug + "/" else "/manga/";
      ResolveURL(base, folder + ChapterPath(ref, slug) + "/1.html")
  }

  lemma WantedSnoc(parts: seq<string>, part: string)
    ensures Wanted(parts + [part]) == Wanted(parts) + if Skipped(part) then [] else [part]
  {
    assert (parts + [part])[..|parts|] == parts;
  }

  method CleanChapterID(parse: Parser, rawHref: string, slug: string) returns (id: string)
    ensures id == CleanID(parse, rawHref, slug)
  {
    hide StripHost, Trim, TrimSpace, Split, Join, Skipped, Wanted;
    var href := StripHost(parse, TrimSpace(rawHref));
    href := Trim(href, '/');
    if HasPrefix(href, "manga/") {
      href := TrimPrefix(href, "manga/");
      href := Trim(href, '/');
    }
    if slug != "" && HasPrefix(href, slug + "/") {
      href := TrimPrefix(href, slug + "/");
      href := Trim(href, '/');
    }
    var parts := Split(href, '/');
    var cleanParts := [];
    NoneWanted();
    for i := 0 to |parts|
      invariant cleanParts == Wanted(parts[..i])
    {
      assert parts[..i + 1] == parts[..i] + [parts[i]];
      WantedSnoc(parts[..i], parts[i]);
      if Skipped(parts[i]) {
        continue;
      }
      cleanParts := cleanParts + [parts[i]];
    }
    assert parts[..|parts|] == parts;
    if |cleanParts| == 0 {
      return href;
    }
    return Join(cleanParts, '-');
  }

  lemma NoneWanted()
    ensures Wanted([]) == []
  {
  }

  method ResolveChapterURL(parse: Parser, base: string, mangaRef: string, rawRef: string) returns (url: string)
    ensures url == ChapterURL(parse, base, mangaRef, rawRef)
  {
    hide ExtractSlug, Trim, TrimSpace, ReplaceAll, ResolveURL;
    var ref := TrimSpace(rawRef);
    if HasPrefix(ref, "http://") || HasPrefix(ref, "https://") {
      return ref;
    }
    var mangaSlug := ExtractSlug(parse, mangaRef);
    ref := ReplaceAll(ref, '~', '/');
    ref := Trim(ref, '/');
    if HasPrefix(ref, "manga/") {
      ref := TrimPrefix(ref, "manga/");
      ref := Trim(ref, '/');
    }
    if mangaSlug != "" && HasPrefix(ref, mangaSlug + "/") {
      ref := TrimPrefix(ref, mangaSlug + "/");
      ref := Trim(ref, '/');
    }
    if HasSuffix(ref, "/1.html") {
      ref := TrimSuffix(ref, "/1.html");
    } else if HasSuffix(ref, ".html") {
      ref := TrimSuffix(ref, ".html");
    }
    var relPath := ReplaceAll(ref, '-', '/');
    if mangaSlug != "" {
      return ResolveURL(base, "/manga/" + mangaSlug + "/" + relPath + "/1.html");
    }
    return ResolveURL(base, "/manga/" + relPath + "/1.html");
  }

  // ----- The links a chapter list shows -----

  /** A path component. */
  predicate Component(p: string) {
    p != "" && '/' !in p
  }

  predicate Chapter(slug: string, parts: seq<string>) {
    && Component(slug)
    && parts != []
    && forall p :: p in parts ==> Component(p) && !HasSuffix(p, ".html")
  }

  function Link(slug: string, parts: seq<string>): string {
    "/manga/" + slug + "/" + Join(parts, '/') + "/1.html"
  }

  /** The condition under which an id leads back to its link. */
  predicate Readable(parts: seq<string>) {
    && (forall p :: p in parts ==> '-' !in p && '~' !in p)
    && TrimSpace(Join(parts, '-')) == Join(parts, '-')
  }

  // ----- Trimming -----

  lemma TrimNothing(s: string, c: char)
    requires s != "" && s[0] != c && s[|s| - 1] != c
    ensures Trim(s, c) == s
  {
  }

  lemma TrimSpaceNothing(s: string)
    requires s != "" && !IsSpace(s[0]) && !IsSpace(s[|s| - 1])
    ensures TrimSpace(s) == s
  {
  }

  lemma {:induction false} TrimLeftWithin(s: string, c: char)
    ensures |TrimLeft(s, c)| <= |s| && forall x :: x in TrimLeft(s, c) ==> x in s
  {
    if s != "" && s[0] == c {
      TrimLeftWithin(s[1..], c);
    }
  }

  lemma {:induction false} TrimRightWithin(s: string, c: char)
    ensures |TrimRight(s, c)| <= |s| && forall x :: x in TrimRight(s, c) ==> x in s
  {
    if s != "" && s[|s| - 1] == c {
      TrimRightWithin(s[..|s| - 1], c);
    }
  }

  lemma StripWithin(s: string, slug: string)
    ensures |StripPage(StripManga(s, slug))| <= |s|
    ensures forall x :: x in StripPage(StripManga(s, slug)) ==> x in s
  {
    hide TrimLeft, TrimRight;
    TrimWithin(s);
    var path := Trim(s, '/');
    StripPrefixWithin(path, "manga/");
    StripPrefixWithin(StripPrefix(path, "manga/"), slug + "/");
  }

  lemma TrimWithin(s: string)
    ensures |Trim(s, '/')| <= |s| && forall x :: x in Trim(s, '/') ==> x in s
  {
    TrimLeftWithin(s, '/');
    TrimRightWithin(TrimLeft(s, '/'), '/');
  }

  lemma StripPrefixWithin(s: string, prefix: string)
    ensures |StripPrefix(s, prefix)| <= |s| && forall x :: x in StripPrefix(s, prefix) ==> x in s
  {
    if prefix <= s {
      TrimWithin(s[|prefix|..]);
    }
  }

  // ----- Printing -----

  predicate SingleSlashes(s: string) {
    forall i :: 0 < i < |s| ==> s[i - 1] != '/' || s[i] != '/'
  }

  lemma DoubleSlash(s: string)
    requires "://" <= s
    ensures !SingleSlashes(s)
  {
    assert s[1] == '/' && s[2] == '/';
  }

  lemma {:induction false} NoScheme(s: string)
    requires SingleSlashes(s)
    ensures AfterScheme(s) == None
  {
    if "://" <= s {
      DoubleSlash(s);
    }
    if s != "" {
      NoScheme(s[1..]);
    }
  }

  lemma {:induction false} JoinShape(parts: seq<string>, c: char)
    requires parts != [] && forall p :: p in parts ==> Component(p)
    ensures Join(parts, c) != "" && Join(parts, c)[0] != '/'
    ensures Join(parts, c)[|Join(parts, c)| - 1] != '/'
    ensures c != '/' ==> '/' !in Join(parts, c)
    ensures c == '/' ==> SingleSlashes(Join(parts, c))
    decreases |parts|
  {
    assert Component(parts[0]);
    if |parts| > 1 {
      assert forall p :: p in parts[1..] ==> p in parts;
      JoinShape(parts[1..], c);
      var rest := Join(parts[1..], c);
    }
  }

  lemma {:induction false} JoinEnds(parts: seq<string>, c: char, last: string)
    ensures Join(parts + [last], c) == if parts == [] then last else Join(parts, c) + [c] + last
    decreases |parts|
  {
    if |parts| == 1 {
      assert (parts + [last])[1..] == [last];
    } else if parts != [] {
      assert (parts + [last])[1..] == parts[1..] + [last];
      JoinEnds(parts[1..], c, last);
    }
  }

  lemma {:induction false} WantedAll(parts: seq<string>)
    requires forall p :: p in parts ==> !Skipped(p)
    ensures Wanted(parts) == parts
    decreases |parts|
  {
    hide Skipped;
    if parts != [] {
      WantedAll(parts[..|parts| - 1]);
    }
  }

  /** What is left of a link when host, "manga/" and slug are stripped. */
  lemma LinkStripped(parse: Parser, slug: string, parts: seq<string>)
    requires ReadsPaths(parse) && Chapter(slug, parts)
    ensures StripManga(StripHost(parse, TrimSpace(Link(slug, parts))), slug) == Join(parts + ["1.html"], '/')
  {
    hide Join, SingleSlashes, StripHost, StripManga, TrimSpace;
    var href, tail := Link(slug, parts), Join(parts + ["1.html"], '/');
    JoinEnds(parts, '/', "1.html");
    JoinShape(parts, '/');
    assert href == "/manga/" + (slug + "/" + tail);
    TrimSpaceNothing(href);
    LinkSlashes(slug, Join(parts, '/'));
    NoHost(parse, href);
    MangaStripped(slug, tail);
  }

  lemma NoHost(parse: Parser, s: string)
    requires ReadsPaths(parse) && |s| > 1 && s[0] == '/' && SingleSlashes(s)
    ensures StripHost(parse, s) == s
  {
    NoScheme(s);
    assert !("//" <= s) by {
      assert s[0] != '/' || s[1] != '/';
    }
  }

  lemma MangaStripped(slug: string, tail: string)
    requires Component(slug) && tail != "" && tail[0] != '/' && tail[|tail| - 1] != '/'
    ensures StripManga("/manga/" + (slug + "/" + tail), slug) == tail
  {
    hide Trim;
    var one := "manga/" + (slug + "/" + tail);
    assert "/manga/" + (slug + "/" + tail) == "/" + one;
    TrimOneSlash(one);
    assert one[|"manga/"|..] == slug + "/" + tail;
    TrimNothing(slug + "/" + tail, '/');
    assert (slug + "/" + tail)[|slug + "/"|..] == tail;
    TrimNothing(tail, '/');
  }

  lemma TrimOneSlash(s: string)
    requires s != "" && s[0] != '/' && s[|s| - 1] != '/'
    ensures Trim("/" + s, '/') == s
  {
    assert ("/" + s)[1..] == s;
    assert TrimLeft("/" + s, '/') == TrimLeft(s, '/') == s;
  }

  lemma LinkSlashes(slug: string, path: string)
    requires Component(slug) && path != "" && path[0] != '/' && path[|path| - 1] != '/' && SingleSlashes(path)
    ensures SingleSlashes("/manga/" + slug + "/" + path + "/1.html")
  {
    var s := "/manga/" + slug + "/" + path + "/1.html";
    var a, b := 7 + |slug|, 8 + |slug| + |path|;
    forall i | 0 < i < |s| ensures s[i - 1] != '/' || s[i] != '/' {
      if 7 <= i < a {
        assert s[i] == slug[i - 7];
      } else if i == a {
        assert s[i - 1] == slug[|slug| - 1];
      } else if a + 1 < i < b {
        assert s[i - 1] == path[i - a - 2] && s[i] == path[i - a - 1];
      }
    }
  }

  /** The id printed for a link is its components joined by dashes. */
  lemma CleanIDIsJoin(parse: Parser, slug: string, parts: seq<string>)
    requires ReadsPaths(parse) && Chapter(slug, parts)
    ensures CleanID(parse, Link(slug, parts), slug) == Join(parts, '-')
  {
    hide Join, StripHost, StripManga, TrimSpace, Split;
    LinkStripped(parse, slug, parts);
    var all := parts + ["1.html"];
    SplitJoin(all, '/');
    WantedAll(parts);
    WantedSnoc(parts, "1.html");
    assert Wanted(all) == parts;
  }

  // ----- Reading back -----

  lemma ReplaceRemoves(s: string, a: char, b: char)
    requires a != b
    ensures a !in ReplaceAll(s, a, b) && |ReplaceAll(s, a, b)| == |s|
    ensures forall c :: c != a && c != b && c !in s ==> c !in ReplaceAll(s, a, b)
    ensures a !in s ==> ReplaceAll(s, a, b) == s
  {
  }

  /** Reading only shortens an id, and leaves no dash and no tilde. */
  lemma PathIsPlain(ref: string, slug: string)
    ensures '-' !in ChapterPath(ref, slug) && '~' !in ChapterPath(ref, slug)
    ensures |ChapterPath(ref, slug)| <= |ref|
  {
    hide StripManga, StripPage, ReplaceAll;
    var slashed := ReplaceAll(ref, '~', '/');
    ReplaceRemoves(ref, '~', '/');
    StripWithin(slashed, slug);
    ReplaceRemoves(StripPage(StripManga(slashed, slug)), '-', '/');
  }

  lemma {:induction false} CharsOfJoin(parts: seq<string>, c: char, p: string, x: char)
    requires p in parts && x in p
    ensures x in Join(parts, c)
    decreases |parts|
  {
    if |parts| > 1 && p != parts[0] {
      assert p in parts[1..];
      CharsOfJoin(parts[1..], c, p, x);
    }
  }

  lemma {:induction false} JoinLength(parts: seq<string>, a: char, b: char)
    ensures |Join(parts, a)| == |Join(parts, b)|
    decreases |parts|
  {
    if |parts| > 1 {
      JoinLength(parts[1..], a, b);
    }
  }

  lemma {:induction false} NoCharOfJoin(parts: seq<string>, c: char, x: char)
    requires x != c && forall p :: p in parts ==> x !in p
    ensures x !in Join(parts, c)
    decreases |parts|
  {
    if parts != [] {
      assert parts[0] in parts;
      if |parts| > 1 {
        assert forall p :: p in parts[1..] ==> p in parts;
        NoCharOfJoin(parts[1..], c, x);
      }
    }
  }

  lemma NoPageSuffix(parts: seq<string>)
    requires parts != [] && !HasSuffix(parts[|parts| - 1], ".html")
    ensures !HasSuffix(Join(parts, '-'), ".html")
  {
    hide Join, HasSuffix;
    var last := parts[|parts| - 1];
    assert parts == parts[..|parts| - 1] + [last];
    JoinEnds(parts[..|parts| - 1], '-', last);
    if |parts| > 1 {
      DashBeforeSuffix(Join(parts[..|parts| - 1], '-'), last);
    }
  }

  lemma DashBeforeSuffix(a: string, last: string)
    requires !HasSuffix(last, ".html")
    ensures !HasSuffix(a + "-" + last, ".html")
  {
    var id := a + "-" + last;
    if |last| < 5 && |id| >= 5 {
      assert id[|id| - 5..][4 - |last|] == '-' != ".html"[4 - |last|];
    } else if |last| >= 5 {
      assert id[|id| - 5..] == last[|last| - 5..];
    }
  }

  /** A readable id without slashes is taken as it stands, and its dashes become slashes again. */
  lemma ReadableReadsBack(slug: string, parts: seq<string>)
    requires Chapter(slug, parts) && Readable(parts)
    ensures ChapterPath(Join(parts, '-'), slug) == Join(parts, '/')
  {
    hide Join, ReplaceAll;
    var id := Join(parts, '-');
    JoinShape(parts, '-');
    NoCharOfJoin(parts, '-', '~');
    ReplaceRemoves(id, '~', '/');
    assert id[0] in id && id[|id| - 1] in id;
    TrimNothing(id, '/');
    assert !("manga/" <= id) by {
      assert "manga/"[5] == '/';
    }
    assert !(slug + "/" <= id) by {
      assert (slug + "/")[|slug|] == '/';
    }
    assert StripManga(id, slug) == id;
    assert parts[|parts| - 1] in parts;
    NoPageSuffix(parts);
    assert !HasSuffix(id, "/1.html") by {
      assert "/1.html"[0] == '/';
    }
    ReplaceJoin(parts, '-', '/');
  }

  /** An id that is not readable leads to some other path. */
  lemma UnreadableIsLost(slug: string, parts: seq<string>)
    requires Chapter(slug, parts) && !Readable(parts)
    ensures ChapterPath(TrimSpace(Join(parts, '-')), slug) != Join(parts, '/')
  {
    hide Join, ChapterPath, TrimSpace;
    var id := Join(parts, '-');
    var path := ChapterPath(TrimSpace(id), slug);
    PathIsPlain(TrimSpace(id), slug);
    JoinLength(parts, '-', '/');
    TrimSpaceShortens(id);
    if p :| p in parts && ('-' in p || '~' in p) {
      CharsOfJoin(parts, '/', p, if '-' in p then '-' else '~');
    }
  }

  lemma {:induction false} TrimRightSpaceShortens(s: string)
    ensures TrimRightSpace(s) == s || |TrimRightSpace(s)| < |s|
  {
    if s != "" && IsSpace(s[|s| - 1]) {
      TrimRightSpaceShortens(s[..|s| - 1]);
    }
  }

  lemma {:induction false} TrimLeftSpaceShortens(s: string)
    ensures TrimLeftSpace(s) == s || |TrimLeftSpace(s)| < |s|
  {
    if s != "" && IsSpace(s[0]) {
      TrimLeftSpaceShortens(s[1..]);
    }
  }

  lemma TrimSpaceShortens(s: string)
    ensures TrimSpace(s) == s || |TrimSpace(s)| < |s|
  {
    TrimLeftSpaceShortens(s);
    TrimRightSpaceShortens(TrimLeftSpace(s));
  }

  lemma ResolvedPathsDiffer(base: string, slug: string, a: string, b: string)
    requires Component(slug)
    ensures ResolveURL(base, "/manga/" + slug + "/" + a + "/1.html") == ResolveURL(base, "/manga/" + slug + "/" + b + "/1.html")
            <==> a == b
  {
    hide ResolveURL, TrimRight;
    LinkResolves(base, slug, a);
    LinkResolves(base, slug, b);
    var root, head := TrimRight(base, '/'), "/manga/" + slug + "/";
    CancelEnds(root, head + a + "/1.html", head + b + "/1.html", "");
    CancelEnds(head, a, b, "/1.html");
  }

  lemma CancelEnds(front: string, a: string, b: string, tail: string)
    ensures front + a + tail == front + b + tail <==> a == b
  {
    if front + a + tail == front + b + tail {
      assert |a| == |b|;
      assert a == (front + a + tail)[|front|..|front| + |a|];
      assert b == (front + b + tail)[|front|..|front| + |b|];
    }
  }

  lemma LinkResolves(base: string, slug: string, path: string)
    ensures var link := "/manga/" + slug + "/" + path + "/1.html";
            ResolveURL(base, link) == TrimRight(base, '/') + link
  {
    var link := "/manga/" + slug + "/" + path + "/1.html";
    assert link[0] == '/' && link[1] == 'm';
    assert link[1..] == TrimLeft(link, '/');
    assert "/" + link[1..] == link;
  }

  /**
   * A listed chapter is fetched from the link it was listed with exactly when no component of the link
   * contains a dash or a tilde and the id has no white space at its ends.
   */
  lemma ChapterRoundTrip(parse: Parser, base: string, mangaRef: string, parts: seq<string>)
    requires ReadsPaths(parse) && Chapter(ExtractSlug(parse, mangaRef), parts)
    ensures var slug := ExtractSlug(parse, mangaRef);
            var href := Link(slug, parts);
            ChapterURL(parse, base, mangaRef, CleanID(parse, href, slug)) == ResolveURL(base, href) <==> Readable(parts)
  {
    hide CleanID, ExtractSlug, Join, TrimSpace, ResolveURL, ChapterPath;
    var slug := ExtractSlug(parse, mangaRef);
    CleanIDIsJoin(parse, slug, parts);
    var id := Join(parts, '-');
    JoinShape(parts, '-');
    NotAbsolute(id);
    var path := ChapterPath(TrimSpace(id), slug);
    ResolvedPathsDiffer(base, slug, path, Join(parts, '/'));
    if Readable(parts) {
      ReadableReadsBack(slug, parts);
    } else {
      UnreadableIsLost(slug, parts);
    }
  }

  lemma NotAbsolute(id: string)
    requires '/' !in id
    ensures !HasPrefix(TrimSpace(id), "http://") && !HasPrefix(TrimSpace(id), "https://")
  {
    TrimSpaceWithin(id);
    assert "http://"[5] == '/' && "https://"[6] == '/';
  }

  lemma {:induction false} TrimLeftSpaceWithin(s: string)
    ensures forall x :: x in TrimLeftSpace(s) ==> x in s
  {
    if s != "" && IsSpace(s[0]) {
      TrimLeftSpaceWithin(s[1..]);
    }
  }

  lemma {:induction false} TrimRightSpaceWithin(s: string)
    ensures forall x :: x in TrimRightSpace(s) ==> x in s
  {
    if s != "" && IsSpace(s[|s| - 1]) {
      TrimRightSpaceWithin(s[..|s| - 1]);
    }
  }

  lemma TrimSpaceWithin(s: string)
    ensures forall x :: x in TrimSpace(s) ==> x in s
  {
    TrimLeftSpaceWithin(s);
    TrimRightSpaceWithin(TrimLeftSpace(s));
  }

  /** Chapters of one manga with readable links have the same id only if they are the same chapter. */
  lemma IdsAreInjective(parse: Parser, slug: string, a: seq<string>, b: seq<string>)
    requires ReadsPaths(parse) && Chapter(slug, a) && Chapter(slug, b) && Readable(a) && Readable(b)
    ensures CleanID(parse, Link(slug, a), slug) == CleanID(parse, Link(slug, b), slug) <==> a == b
  {
    hide CleanID;
    CleanIDIsJoin(parse, slug, a);
    CleanIDIsJoin(parse, slug, b);
    SplitJoin(a, '-');
    SplitJoin(b, '-');
  }

  /** Without that condition two chapters of one manga share an id: a folder p/q and a folder p-q. */
  lemma DashesCollide(parse: Parser, slug: string, p: string, q: string)
    requires ReadsPaths(parse) && Chapter(slug, [p, q]) && Chapter(slug, [p + "-" + q])
    ensures CleanID(parse, Link(slug, [p, q]), slug) == CleanID(parse, Link(slug, [p + "-" + q]), slug)
    ensures Link(slug, [p, q]) != Link(slug, [p + "-" + q])
  {
    hide CleanID;
    CleanIDIsJoin(parse, slug, [p, q]);
    CleanIDIsJoin(parse, slug, [p + "-" + q]);
    assert [p, q][1..] == [q];
    CancelEnds("/manga/" + slug + "/", p + "/" + q, p + "-" + q, "/1.html");
    CancelEnds(p, "/", "-", q);
  }

  // ----- Other forms of links, references and ids -----

  /** What is kept of a path are its non-empty components that name no page, in order. */
  lemma {:induction false} WantedKeeps(parts: seq<string>)
    ensures forall p :: p in Wanted(parts) <==> p in parts && p != "" && !HasSuffix(p, ".html")
    ensures InOrder(parts, Wanted(parts))
    decreases |parts|
  {
    hide HasSuffix;
    if parts != [] {
      var front, last := parts[..|parts| - 1], parts[|parts| - 1];
      assert parts == front + [last];
      WantedKeeps(front);
      PageNames(last);
      InOrderSnoc(front, Wanted(front), last);
    }
  }

  lemma PageNames(part: string)
    ensures Skipped(part) <==> part == "" || HasSuffix(part, ".html")
  {
    assert "1.html"[|"1.html"| - |".html"|..] == ".html";
  }

  /** A link with a host that the parser recognises has the id of its path. */
  lemma HostDoesNotMatter(parse: Parser, href: string, slug: string, parts: seq<string>)
    requires ReadsPaths(parse) && Chapter(slug, parts)
    requires var u := parse(TrimSpace(href));
             u.Some? && (u.value.scheme != "" || u.value.host != "") && u.value.path == Link(slug, parts)
    ensures CleanID(parse, href, slug) == Join(parts, '-')
  {
    hide Join, StripManga, TrimSpace, Split;
    LinkIsBare(parse, slug, parts);
    assert StripHost(parse, TrimSpace(href)) == StripHost(parse, TrimSpace(Link(slug, parts)));
    CleanIDIsJoin(parse, slug, parts);
  }

  lemma LinkIsBare(parse: Parser, slug: string, parts: seq<string>)
    requires ReadsPaths(parse) && Chapter(slug, parts)
    ensures StripHost(parse, TrimSpace(Link(slug, parts))) == Link(slug, parts)
  {
    hide Join, SingleSlashes, StripHost, TrimSpace;
    JoinShape(parts, '/');
    TrimSpaceNothing(Link(slug, parts));
    LinkSlashes(slug, Join(parts, '/'));
    NoHost(parse, Link(slug, parts));
  }

  /** So does one with a scheme and a host that the parser rejects. */
  lemma RejectedHostIsStripped(parse: Parser, scheme: string, host: string, path: string)
    requires parse(scheme + "://" + host + path) == None
    requires ':' !in scheme && '/' !in host && path != "" && path[0] == '/'
    ensures StripHost(parse, scheme + "://" + host + path) == path
  {
    SchemeEnds(scheme, host + path);
    assert scheme + "://" + host + path == scheme + "://" + (host + path);
    assert host + path == host + ['/'] + path[1..];
    BeforeConcat(host, '/', path[1..]);
  }

  lemma {:induction false} SchemeEnds(scheme: string, rest: string)
    requires ':' !in scheme
    ensures AfterScheme(scheme + "://" + rest) == Some(rest)
    decreases |scheme|
  {
    var s := scheme + "://" + rest;
    if scheme == "" {
      assert s == "://" + rest && s[3..] == rest;
    } else {
      assert s[0] == scheme[0] && s[1..] == scheme[1..] + "://" + rest;
      SchemeEnds(scheme[1..], rest);
    }
  }

  /** The slug of a manga is read from its link as from its bare name. */
  lemma SlugOfLink(parse: Parser, slug: string)
    requires ReadsPaths(parse) && Component(slug)
    ensures ExtractSlug(parse, "/manga/" + slug + "/") == slug
    ensures !IsSpace(slug[0]) && !IsSpace(slug[|slug| - 1]) && ':' !in slug
            && (parse(slug).Some? ==> parse(slug).value.scheme == parse(slug).value.host == "")
            ==> ExtractSlug(parse, slug) == slug
  {
    hide StripHost, TrimSpace, Trim, SingleSlashes;
    var link := "/manga/" + slug + "/";
    TrimSpaceNothing(link);
    SlugSlashes(slug);
    NoHost(parse, link);
    TrimBothSlashes("manga/" + slug);
    assert link == "/" + ("manga/" + slug) + "/";
    assert ("manga/" + slug)[|"manga/"|..] == slug;
    TrimNothing(slug, '/');
    if !IsSpace(slug[0]) && !IsSpace(slug[|slug| - 1]) && ':' !in slug
       && (parse(slug).Some? ==> parse(slug).value.scheme == parse(slug).value.host == "") {
      BareSlug(parse, slug);
    }
  }

  lemma SlugSlashes(slug: string)
    requires Component(slug)
    ensures SingleSlashes("/manga/" + slug + "/")
  {
    var s := "/manga/" + slug + "/";
    forall i | 0 < i < |s| ensures s[i - 1] != '/' || s[i] != '/' {
      if 7 <= i < 7 + |slug| {
        assert s[i] == slug[i - 7];
      } else if i == 7 + |slug| {
        assert s[i - 1] == slug[|slug| - 1];
      }
    }
  }

  lemma TrimBothSlashes(s: string)
    requires s != "" && s[0] != '/' && s[|s| - 1] != '/'
    ensures Trim("/" + s + "/", '/') == s
  {
    assert ("/" + s + "/")[1..] == s + "/";
    assert TrimLeft("/" + s + "/", '/') == TrimLeft(s + "/", '/') == s + "/";
    assert (s + "/")[..|s|] == s;
    assert TrimRight(s + "/", '/') == TrimRight(s, '/') == s;
  }

  lemma BareSlug(parse: Parser, slug: string)
    requires Component(slug) && !IsSpace(slug[0]) && !IsSpace(slug[|slug| - 1]) && ':' !in slug
    requires parse(slug).Some? ==> parse(slug).value.scheme == parse(slug).value.host == ""
    ensures ExtractSlug(parse, slug) == slug
  {
    TrimSpaceNothing(slug);
    NoScheme(slug);
    TrimNothing(slug, '/');
    assert !("manga/" <= slug) by {
      assert "manga/"[5] == '/';
    }
  }

  /** An id written with tildes is read back as well, unless it starts like the manga's own folder. */
  lemma TildesReadBack(slug: string, parts: seq<string>)
    requires Chapter(slug, parts) && parts[0] != "manga" && parts[0] != slug
    requires forall p :: p in parts ==> '-' !in p && '~' !in p
    ensures ChapterPath(Join(parts, '~'), slug) == Join(parts, '/')
  {
    hide Join, ReplaceAll, HasSuffix;
    var path := Join(parts, '/');
    ReplaceJoin(parts, '~', '/');
    JoinShape(parts, '/');
    TrimNothing(path, '/');
    assert parts[0] in parts;
    FirstOfJoin(parts, "manga");
    FirstOfJoin(parts, slug);
    assert "manga" + "/" == "manga/";
    assert StripManga(path, slug) == path;
    assert parts[|parts| - 1] in parts;
    NoPageInPath(parts);
    NoCharOfJoin(parts, '/', '-');
    ReplaceRemoves(path, '-', '/');
  }

  /** The link itself is read back too. */
  lemma LinkReadsBack(slug: string, parts: seq<string>)
    requires Chapter(slug, parts) && '~' !in slug && forall p :: p in parts ==> '-' !in p && '~' !in p
    ensures ChapterPath(Link(slug, parts), slug) == Join(parts, '/')
  {
    hide Join, ReplaceAll, StripManga;
    var path := Join(parts, '/');
    var link, tail := Link(slug, parts), path + "/1.html";
    JoinShape(parts, '/');
    NoCharOfJoin(parts, '/', '~');
    NoCharOfJoin(parts, '/', '-');
    ReplaceRemoves(link, '~', '/');
    assert link == "/manga/" + (slug + "/" + tail);
    MangaStripped(slug, tail);
    assert tail[|tail| - 7..] == "/1.html" && tail[..|tail| - 7] == path;
    ReplaceRemoves(path, '-', '/');
  }

  /** Of another page's path the page's ending goes, but a page called 1.html goes as a whole. */
  lemma PageEndingGoes(slug: string, parts: seq<string>)
    requires Chapter(slug, parts) && |parts| > 1 && parts[0] != "manga" && parts[0] != slug && parts[|parts| - 1] != "1"
    requires forall p :: p in parts ==> '-' !in p && '~' !in p
    ensures ChapterPath(Join(parts, '/') + ".html", slug) == Join(parts, '/')
  {
    hide Join, ReplaceAll;
    var path := Join(parts, '/');
    var ref := path + ".html";
    JoinShape(parts, '/');
    NoCharOfJoin(parts, '/', '~');
    NoCharOfJoin(parts, '/', '-');
    ReplaceRemoves(ref, '~', '/');
    TrimNothing(ref, '/');
    assert parts[0] in parts;
    FirstOfLonger(parts, ".html", "manga");
    FirstOfLonger(parts, ".html", slug);
    assert "manga" + "/" == "manga/";
    assert StripManga(ref, slug) == ref;
    NotPageOne(parts);
    assert ref[|ref| - 5..] == ".html" && ref[..|ref| - 5] == path;
    ReplaceRemoves(path, '-', '/');
  }

  lemma FirstOfLonger(parts: seq<string>, tail: string, name: string)
    requires |parts| > 1 && Component(parts[0]) && '/' !in name && parts[0] != name
    ensures !(name + "/" <= Join(parts, '/') + tail)
  {
    var rest := Join(parts[1..], '/') + tail;
    assert Join(parts, '/') + tail == parts[0] + "/" + rest;
    hide Join;
    OtherFolder(parts[0], rest, name);
  }

  lemma OtherFolder(first: string, rest: string, name: string)
    requires '/' !in first && '/' !in name && first != name
    ensures !(name + "/" <= first + "/" + rest)
  {
    var s := first + "/" + rest;
    if |name| < |first| {
      assert (name + "/")[|name|] == '/' && s[|name|] == first[|name|];
    } else if |name| > |first| {
      assert (name + "/")[|first|] == name[|first|] && s[|first|] == '/';
    } else {
      assert (name + "/")[..|name|] == name && s[..|name|] == first;
    }
  }

  lemma NotPageOne(parts: seq<string>)
    requires |parts| > 1 && parts[|parts| - 1] != "1" && forall p :: p in parts ==> Component(p)
    ensures !HasSuffix(Join(parts, '/') + ".html", "/1.html")
  {
    hide Join;
    var front, last := Join(parts[..|parts| - 1], '/'), parts[|parts| - 1];
    assert parts == parts[..|parts| - 1] + [last] && last in parts;
    JoinEnds(parts[..|parts| - 1], '/', last);
    OtherPage(front, last);
  }

  lemma OtherPage(front: string, last: string)
    requires Component(last) && last != "1"
    ensures !HasSuffix(front + "/" + last + ".html", "/1.html")
  {
    var ref := front + "/" + last + ".html";
    var end := ref[|ref| - 7..];
    if |last| == 1 {
      assert end[1] == last[0] && "/1.html"[1] == '1' && last == [last[0]];
    } else {
      assert end[0] == last[|last| - 2] && "/1.html"[0] == '/';
    }
  }

  lemma FirstOfJoin(parts: seq<string>, name: string)
    requires parts != [] && Component(parts[0]) && '/' !in name && parts[0] != name
    ensures !(name + "/" <= Join(parts, '/'))
  {
    if |parts| > 1 {
      FirstOfLonger(parts, "", name);
      assert Join(parts, '/') + "" == Join(parts, '/');
    } else {
      assert (name + "/")[|name|] == '/';
    }
  }

  lemma NoPageInPath(parts: seq<string>)
    requires parts != [] && !HasSuffix(parts[|parts| - 1], ".html")
    ensures !HasSuffix(Join(parts, '/'), ".html") && !HasSuffix(Join(parts, '/'), "/1.html")
  {
    hide Join;
    var path, last := Join(parts, '/'), parts[|parts| - 1];
    assert parts == parts[..|parts| - 1] + [last];
    JoinEnds(parts[..|parts| - 1], '/', last);
    if |parts| > 1 {
      SlashBeforeSuffix(Join(parts[..|parts| - 1], '/'), last);
    }
    PageHasSuffix(path);
  }

  lemma PageHasSuffix(s: string)
    ensures HasSuffix(s, "/1.html") ==> HasSuffix(s, ".html")
  {
    if HasSuffix(s, "/1.html") {
      assert s[|s| - 5..] == s[|s| - 7..][2..] == "/1.html"[2..] == ".html";
    }
  }

  lemma SlashBeforeSuffix(a: string, last: string)
    requires !HasSuffix(last, ".html")
    ensures !HasSuffix(a + "/" + last, ".html")
  {
    var id := a + "/" + last;
    if |last| < 5 && |id| >= 5 {
      assert id[|id| - 5..][4 - |last|] == '/' != ".html"[4 - |last|];
    } else if |last| >= 5 {
      assert id[|id| - 5..] == last[|last| - 5..];
    }
  }

  /** A reference that is a URL is fetched as it is. */
  lemma AbsoluteReferenceStays(parse: Parser, base: string, mangaRef: string, url: string)
    requires ("http://" <= url || "https://" <= url) && !IsSpace(url[|url| - 1])
    ensures ChapterURL(parse, base, mangaRef, url) == url
  {
    TrimSpaceNothing(url);
  }
}
