/** The rule the detectors use to turn a script-relative URL into one
    relative to the page: strip the page URL, then at most one `/`, and
    prefix `./`; a URL outside the page is left as it is. */
module Paths {

  predicate StartsWith(s: string, prefix: string) {
    |prefix| <= |s| && s[..|prefix|] == prefix
  }

  /** The page-relative form of url. */
  function RelativePath(url: string, base: string): string {
    if StartsWith(url, base) then
      var rest := url[|base|..];
      "./" + (if StartsWith(rest, "/") then rest[1..] else rest)
    else url
  }

  /** A URL under the page becomes `./` followed by what comes after the
      page URL and at most one `/`, so that putting the page URL (and the
      dropped `/`) back in front gives the URL again; any other URL is
      kept. */
  lemma RelativePathInverse(url: string, base: string)
    ensures StartsWith(url, base) ==>
      var r := RelativePath(url, base);
      |r| >= 2 && r[..2] == "./" && (url == base + r[2..] || url == base + "/" + r[2..])
    ensures !StartsWith(url, base) ==> RelativePath(url, base) == url
  {
    if StartsWith(url, base) {
      var rest := url[|base|..];
      assert url == base + rest;
      if StartsWith(rest, "/") {
        assert rest == "/" + rest[1..];
      }
    }
  }

  /** One `/` between the page URL and the path is dropped, and a path
      joined directly to the page URL is kept whole. */
  lemma RelativePathStripsOne(base: string, path: string)
    ensures RelativePath(base + "/" + path, base) == "./" + path
    ensures !StartsWith(path, "/") ==> RelativePath(base + path, base) == "./" + path
  {
    assert StartsWith(base + "/" + path, base) && (base + "/" + path)[|base|..] == "/" + path;
    assert ("/" + path)[1..] == path;
    assert StartsWith(base + path, base) && (base + path)[|base|..] == path;
  }

  /** The relativisation as the source writes it: the value is reassigned
      step by step. */
  method Relativise(value: string, base: string) returns (result: string)
    ensures result == RelativePath(value, base)
  {
    result := value;
    if StartsWith(result, base) {
      result := result[|base|..];
      if StartsWith(result, "/") {
        result := result[1..];
      }
      result := "./" + result;
    }
  }
}
