/**
 * `config::parse_url`: splits a URL into protocol, host, port and path with
 * `find_first_of` and `substr` on a string view. It is a plain substring split
 * along the lines of the scheme/authority/path split of section 3 of RFC
 * 3986, not a conforming parser. `size_t` arithmetic is written out: `npos`
 * is 2^64 - 1 and sums wrap modulo 2^64.
 */
module Config {
  import opened Wrappers

  /** 2^64, the modulus of `size_t` arithmetic. */
  const SIZE_MOD: nat := 0x1_0000_0000_0000_0000
  /** `string_view::npos` */
  const NPOS: nat := SIZE_MOD - 1

  /** `url_t` */
  datatype Url = Url(protocol: string, host: string, port: string, path: string)

  /** A string view's length is a `size_t` below `npos`. */
  predicate Fits(s: string)
  {
    |s| < NPOS
  }

  /** `find_first_of(c)`: the index of the first `c`, or `npos`. */
  function FindFirst(s: string, c: char): (r: nat)
    requires Fits(s)
    ensures r == NPOS <==> c !in s
    ensures r != NPOS ==> r < |s| && s[r] == c && c !in s[..r]
  {
    if |s| == 0 then NPOS
    else if s[0] == c then 0
    else
      var k := FindFirst(s[1..], c);
      if k == NPOS then NPOS
      else
        assert s[..1 + k] == [s[0]] + s[1..][..k];
        1 + k
  }

  /** `substr(pos, count)`: None where it throws `out_of_range` (pos past the end). */
  function Substr(s: string, pos: nat, count: nat): (r: Option<string>)
    ensures r.Some? <==> pos <= |s|
    ensures r.Some? ==> r.value == s[pos..pos + (if count < |s| - pos then count else |s| - pos)]
  {
    if pos > |s| then None
    else Some(s[pos..pos + (if count < |s| - pos then count else |s| - pos)])
  }

  /**
   * `size_t` addition and subtraction: the value modulo 2^64, for the range
   * the sums and differences of `parse_url` fall in.
   */
  function Wrap(x: int): (r: nat)
    requires 0 <= x + SIZE_MOD && x < 2 * SIZE_MOD
    ensures r < SIZE_MOD && (r - x) % SIZE_MOD == 0
  {
    if x < 0 then x + SIZE_MOD else if x >= SIZE_MOD then x - SIZE_MOD else x
  }

  /**
   * `parse_url(url)`; None where one of its `substr` calls throws. A parsed
   * url's protocol is the part before its first ':' (the whole url when there
   * is none), its host holds no ':', and its path starts with '/'.
   */
  function ParseUrl(url: string): (r: Option<Url>)
    requires Fits(url)
    ensures r.Some? ==>
      var p := r.value.protocol;
      && |p| <= |url| && url[..|p|] == p && ':' !in p && (|p| < |url| ==> url[|p|] == ':')
      && ':' !in r.value.host && |r.value.path| > 0 && r.value.path[0] == '/'
  {
    var found := FindFirst(url, ':');
    var protocol := Substr(url, 0, found).value;
    assert protocol == if found == NPOS then url else url[..found];
    match Substr(url, Wrap(found + 3), NPOS)
    case None => None
    case Some(rest) => SplitAuthority(protocol, rest)
  }

  /** The part of `parse_url` after "://": host, port and path of `rest`. */
  function SplitAuthority(protocol: string, rest: string): (r: Option<Url>)
    requires Fits(rest)
    ensures r.Some? ==> && r.value.protocol == protocol && ':' !in r.value.host
                        && |r.value.path| > 0 && r.value.path[0] == '/'
  {
    var found1 := FindFirst(rest, ':');
    var found2 := FindFirst(rest, '/');
    assert Substr(rest, 0, found1).value == if found1 == NPOS then rest else rest[..found1];
    SplitAt(protocol, rest, found1, found2)
  }

  /** The three `substr` calls of `parse_url` on `rest`, for the positions of its first ':' and its first '/'. */
  function SplitAt(protocol: string, rest: string, found1: nat, found2: nat): Option<Url>
    requires found1 < SIZE_MOD && found2 < SIZE_MOD
  {
    var host := Substr(rest, 0, found1).value;
    var port := Substr(rest, Wrap(found1 + 1), Wrap(found2 - found1 - 1));
    var path := Substr(rest, found2, NPOS);
    if port.None? || path.None? then None
    else Some(Url(protocol, host, port.value, path.value))
  }

  /** The first `c` of `s` is at |pre| when `s` starts with `pre`, `c` is not in it and `c` follows it. */
  lemma FindFirstAt(s: string, c: char, pre: string)
    requires Fits(s) && |pre| < |s| && s[..|pre|] == pre && c !in pre && s[|pre|] == c
    ensures FindFirst(s, c) == |pre|
  {
    assert c in s;
    var k := FindFirst(s, c);
  }

  /** A url "p://rest" with `p` free of ':' parses as the authority split of `rest`. */
  lemma SchemeSplits(p: string, rest: string)
    requires ':' !in p && Fits(p + "://" + rest)
    ensures Fits(rest) && ParseUrl(p + "://" + rest) == SplitAuthority(p, rest)
  {
    var url := p + "://" + rest;
    assert url[..|p|] == p;
    FindFirstAt(url, ':', p);
    assert url[|p| + 3..|url|] == rest;
    assert Substr(url, 0, |p|) == Some(p);
    assert Wrap(|p| + 3) == |p| + 3;
    assert Substr(url, |p| + 3, NPOS) == Some(rest);
  }

  /** A character in neither part nor the separator is not in the joined string. */
  lemma NotInJoin(a: string, sep: char, b: string, c: char)
    requires c !in a && c !in b && c != sep
    ensures c !in a + [sep] + b
  {
    var s := a + [sep] + b;
    forall i | 0 <= i < |s| ensures s[i] != c {
      if i < |a| { assert s[i] == a[i]; }
      else if i > |a| { assert s[i] == b[i - |a| - 1]; }
    }
  }

  /** Where `find_first_of` stops in "h:n/r". */
  lemma AuthorityIndices(h: string, n: string, r: string)
    requires ':' !in h && '/' !in h && '/' !in n && Fits(h + ":" + n + "/" + r)
    ensures FindFirst(h + ":" + n + "/" + r, ':') == |h|
    ensures FindFirst(h + ":" + n + "/" + r, '/') == |h| + 1 + |n|
  {
    var rest := h + ":" + n + "/" + r;
    assert rest[..|h|] == h;
    FindFirstAt(rest, ':', h);
    var hn := h + ":" + n;
    assert rest[..|hn|] == hn;
    assert hn == h + [':'] + n;
    NotInJoin(h, ':', n, '/');
    FindFirstAt(rest, '/', hn);
  }

  /**
   * The split of a well-formed authority: with `h` free of ':' and '/' and `n`
   * free of '/', "h:n/r" gives host `h`, port `n` and path "/r".
   */
  lemma AuthoritySplits(p: string, h: string, n: string, r: string)
    requires ':' !in h && '/' !in h && '/' !in n && Fits(h + ":" + n + "/" + r)
    ensures SplitAuthority(p, h + ":" + n + "/" + r) == Some(Url(p, h, n, "/" + r))
  {
    var rest := h + ":" + n + "/" + r;
    AuthorityIndices(h, n, r);
    SplitWellFormed(p, h, n, r);
  }

  lemma SplitWellFormed(p: string, h: string, n: string, r: string)
    requires |h + ":" + n + "/" + r| < NPOS
    ensures SplitAt(p, h + ":" + n + "/" + r, |h|, |h| + 1 + |n|) == Some(Url(p, h, n, "/" + r))
  {
    var rest := h + ":" + n + "/" + r;
    var k := |h| + 1 + |n|;
    assert rest[..|h|] == h;
    assert Substr(rest, 0, |h|) == Some(h);
    assert Wrap(|h| + 1) == |h| + 1 && Wrap(k - |h| - 1) == |n|;
    assert rest[|h| + 1..|h| + 1 + |n|] == n;
    assert Substr(rest, |h| + 1, |n|) == Some(n);
    assert rest[k..|rest|] == "/" + r;
    assert Substr(rest, k, NPOS) == Some("/" + r);
  }

  /**
   * The split of a well-formed url: with `p` and `h` free of ':' and `h` and
   * `n` free of '/', the url p://h:n/r gives back its four parts, the path
   * keeping its leading '/'.
   */
  lemma ParseUrlSplits(p: string, h: string, n: string, r: string)
    requires ':' !in p && ':' !in h && '/' !in h && '/' !in n && Fits(p + "://" + h + ":" + n + "/" + r)
    ensures ParseUrl(p + "://" + h + ":" + n + "/" + r) == Some(Url(p, h, n, "/" + r))
  {
    var rest := h + ":" + n + "/" + r;
    assert p + "://" + h + ":" + n + "/" + r == p + "://" + rest;
    SchemeSplits(p, rest);
    AuthoritySplits(p, h, n, r);
  }

  /** The url a `url_t` is read from, put back together. */
  function Join(u: Url): string
  {
    u.protocol + "://" + u.host + ":" + u.port + u.path
  }

  /** Under the same conditions the four parts join back to the url. */
  lemma ParseUrlRebuilds(url: string, p: string, h: string, n: string, r: string)
    requires url == p + "://" + h + ":" + n + "/" + r
    requires ':' !in p && ':' !in h && '/' !in h && '/' !in n && Fits(url)
    ensures ParseUrl(url).Some? && Join(ParseUrl(url).value) == url
  {
    ParseUrlSplits(p, h, n, r);
    JoinSplit(p, h, n, r);
  }

  lemma JoinSplit(p: string, h: string, n: string, r: string)
    ensures Join(Url(p, h, n, "/" + r)) == p + "://" + h + ":" + n + "/" + r
  {
  }

  /**
   * The url of the source's own test, written as its parts: protocol "http",
   * and the other three parts.
   */
  lemma ParseTestUrl()
    ensures ParseUrl("http" + "://" + "qwert.mjgug.ouhnbg" + ":" + "5678" + "/" + "path1/path2.html?get=5060?you=all")
         == Some(Url("http", "qwert.mjgug.ouhnbg", "5678", "/" + "path1/path2.html?get=5060?you=all"))
  {
    ParseUrlSplits("http", "qwert.mjgug.ouhnbg", "5678", "path1/path2.html?get=5060?you=all");
  }

  /** A url with no '/' after the scheme makes the last `substr` throw. */
  lemma NoPathThrows(p: string, h: string, n: string)
    requires ':' !in p && '/' !in h && '/' !in n && Fits(p + "://" + h + ":" + n)
    ensures ParseUrl(p + "://" + h + ":" + n) == None
  {
    var rest := h + ":" + n;
    assert p + "://" + h + ":" + n == p + "://" + rest;
    SchemeSplits(p, rest);
    assert rest == h + [':'] + n;
    NotInJoin(h, ':', n, '/');
    assert Substr(rest, NPOS, NPOS) == None;
  }

  /**
   * Without a port the wrap-around of `found1 + 1` shows: for p://h/r the
   * "host" is everything after the scheme and the "port" is h.
   */
  lemma NoPortQuirk(p: string, h: string, r: string)
    requires ':' !in p && ':' !in h && '/' !in h && ':' !in r && Fits(p + "://" + h + "/" + r)
    ensures ParseUrl(p + "://" + h + "/" + r) == Some(Url(p, h + "/" + r, h, "/" + r))
  {
    var rest := h + "/" + r;
    assert p + "://" + h + "/" + r == p + "://" + rest;
    SchemeSplits(p, rest);
    AuthorityWithoutPort(p, h, r);
  }

  lemma AuthorityWithoutPort(p: string, h: string, r: string)
    requires ':' !in h && '/' !in h && ':' !in r && Fits(h + "/" + r)
    ensures SplitAuthority(p, h + "/" + r) == Some(Url(p, h + "/" + r, h, "/" + r))
  {
    var rest := h + "/" + r;
    assert rest == h + ['/'] + r;
    NotInJoin(h, '/', r, ':');
    assert rest[..|h|] == h;
    FindFirstAt(rest, '/', h);
    assert rest[0..|rest|] == rest;
    assert Substr(rest, 0, NPOS) == Some(rest);
    assert Wrap(NPOS + 1) == 0 && Wrap(|h| - NPOS - 1) == |h|;
    assert Substr(rest, 0, |h|) == Some(h);
    assert rest[|h|..|rest|] == "/" + r;
    assert Substr(rest, |h|, NPOS) == Some("/" + r);
  }
}
