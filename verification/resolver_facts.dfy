/** Properties of the static-asset resolver: how a URI is normalized, which
    candidates are tried, when resolution succeeds, and the behaviour on
    the concrete cases the component is designed around. */
module ResolverFacts {
  import opened Types
  import opened Text
  import opened ContentType
  import opened Resolver

  /** A directory URI is served by its index page. */
  lemma NormalizeDirectory(dir: string)
    requires |dir| > 0 && dir[0] == '/' && dir[|dir| - 1] == '/'
    ensures Normalize(dir) == dir + "index.html"
  {
    var p := dir + "index.html";
    assert p[|p| - 1] == 'l';
  }

  /** A request for "p.gz" names the same logical file as "p". */
  lemma NormalizeStripsGz(p: string)
    requires |p| > 0 && p[0] == '/'
    ensures Normalize(p + ".gz") == p
  {
    var u := p + ".gz";
    assert u[|u| - 1] == 'z';
    EndsWithAppend(p, ".gz");
    assert u[..|u| - 3] == p;
  }

  /** A URI that names neither a directory nor a ".gz" file is its own
      logical path. */
  lemma NormalizeKeepsPlainFile(p: string)
    requires |p| > 0 && p[0] == '/' && p[|p| - 1] != '/' && !EndsWith(p, ".gz")
    ensures Normalize(p) == p
  {
  }

  /** "/.gz" loses its suffix only after the directory rule has run, so it
      becomes the bare root "/" and is not remapped to "/index.html": the
      resolver probes exactly "<base>/.gz" and "<base>/". */
  lemma BareGzProbesRootOnly(base: string, vol: set<string>)
    ensures Normalize("/.gz") == "/"
    ensures Candidates("/") == ["/"]
    ensures ResolveFsPath(Some("/.gz"), base, vol).probed
            == ProbeOrder(["/"], base)[..|ResolveFsPath(Some("/.gz"), base, vol).probed|]
    ensures ProbeOrder(["/"], base) == [base + "/" + ".gz", base + "/"]
  {
    NormalizeStripsGz("/");
    assert !HasDotDot("/.gz") by {
      assert !DotDotAt("/.gz", 0) && !DotDotAt("/.gz", 1) && !DotDotAt("/.gz", 2);
    }
  }

  /** The alias of an HTML page name swaps ".html" and ".htm" on the same
      stem. */
  lemma AliasOfStem(stem: string)
    ensures EndsWith(stem + ".html", ".html") && Alias(stem + ".html") == stem + ".htm"
    ensures EndsWith(stem + ".htm", ".htm") && Alias(stem + ".htm") == stem + ".html"
  {
    EndsWithAppend(stem, ".html");
    EndsWithAppend(stem, ".htm");
    var h := stem + ".htm";
    assert h[|h| - 1] == 'm';
    assert (stem + ".html")[..|stem + ".html"| - 5] == stem;
    assert h[..|h| - 4] == stem;
  }

  /** Aliasing twice gives back the original name. */
  lemma AliasInvolution(path: string)
    requires EndsWith(path, ".html") || EndsWith(path, ".htm")
    ensures EndsWith(Alias(path), ".html") || EndsWith(Alias(path), ".htm")
    ensures Alias(Alias(path)) == path
  {
    if EndsWith(path, ".html") {
      var stem := path[..|path| - 5];
      EndsWithSplit(path, ".html");
      AliasOfStem(stem);
    } else {
      var stem := path[..|path| - 4];
      EndsWithSplit(path, ".htm");
      AliasOfStem(stem);
    }
  }

  /** The candidate list is the logical path followed by exactly its alias
      when it names an HTML page, and nothing else. */
  lemma CandidatesAreAliasPair(logical: string)
    ensures (EndsWith(logical, ".html") || EndsWith(logical, ".htm")) ==>
              Candidates(logical) == [logical, Alias(logical)]
    ensures !(EndsWith(logical, ".html") || EndsWith(logical, ".htm")) ==>
              Candidates(logical) == [logical]
  {
    if EndsWith(logical, ".html") {
      assert Candidates(logical)[1] == logical[..|logical| - 5] + ".htm";
    } else if EndsWith(logical, ".htm") {
      assert Candidates(logical)[1] == logical[..|logical| - 4] + ".html";
    }
  }

  /** A URI is resolved exactly when it is acceptable and one of its
      candidates exists on the volume, compressed or plain. */
  lemma ResolvedIffSomeCandidateExists(uri: Option<string>, base: string, vol: set<string>)
    ensures ResolveFsPath(uri, base, vol).found
            <==> && Acceptable(uri)
                 && exists c :: c in Candidates(Normalize(uri.value)) && Hit(base, c, vol)
  {
    if Acceptable(uri) {
      var cands := Candidates(Normalize(uri.value));
      if exists c :: c in cands && Hit(base, c, vol) {
        var c :| c in cands && Hit(base, c, vol);
        var k :| 0 <= k < |cands| && cands[k] == c;
        assert Hit(base, cands[k], vol);
      }
    }
  }

  /** A found resolution serves one of the candidates of the request, with
      that candidate's content type, and the earlier probes all missed. */
  lemma FoundServesCandidate(uri: Option<string>, base: string, vol: set<string>)
    requires ResolveFsPath(uri, base, vol).found
    ensures Acceptable(uri)
    ensures var r := ResolveFsPath(uri, base, vol);
            && r.fullPath in vol
            && (exists c :: c in Candidates(Normalize(uri.value)) && Serves(r, base, c))
            && NoneExist(r.probed, |r.probed| - 1, vol)
  {
    var r := ResolveFsPath(uri, base, vol);
    var cands := Candidates(Normalize(uri.value));
    var k :| 0 <= k < |cands| && Serves(r, base, cands[k]);
    assert cands[k] in cands;
  }

  /** Two acceptable URIs with the same logical path resolve alike: the
      volume is probed by logical path only. */
  lemma ResolutionFollowsLogicalPath(u: string, p: string, base: string, vol: set<string>)
    requires |u| > 0 && u[0] == '/' && !HasDotDot(u)
    requires |p| > 0 && p[0] == '/' && !HasDotDot(p)
    requires Normalize(u) == Normalize(p)
    ensures ResolveFsPath(Some(u), base, vol) == ResolveFsPath(Some(p), base, vol)
  {
  }

  /** A string that is free of ".." stays free of it when cut short. */
  lemma PrefixNoDotDot(p: string, q: string)
    requires !HasDotDot(p + q)
    ensures !HasDotDot(p)
  {
    forall i | DotDotAt(p, i) ensures DotDotAt(p + q, i) {
      assert (p + q)[i] == p[i] && (p + q)[i + 1] == p[i + 1];
    }
  }

  /** "p.gz" and "p" name the same logical path, and both are acceptable
      URIs when "p.gz" is. */
  lemma GzSpellingSameLogicalPath(p: string)
    requires |p| > 0 && p[0] == '/' && p[|p| - 1] != '/' && !EndsWith(p, ".gz")
    requires !HasDotDot(p + ".gz")
    ensures |p + ".gz"| > 0 && (p + ".gz")[0] == '/' && !HasDotDot(p)
    ensures Normalize(p + ".gz") == Normalize(p)
  {
    PrefixNoDotDot(p, ".gz");
    NormalizeStripsGz(p);
    NormalizeKeepsPlainFile(p);
  }

  /** Asking for "p.gz" resolves exactly like asking for "p": compression is
      chosen by what exists on the volume, not by the request's spelling. */
  lemma GzRequestResolvesLikePlain(p: string, base: string, vol: set<string>)
    requires |p| > 0 && p[0] == '/' && p[|p| - 1] != '/' && !EndsWith(p, ".gz")
    requires !HasDotDot(p + ".gz")
    ensures ResolveFsPath(Some(p + ".gz"), base, vol) == ResolveFsPath(Some(p), base, vol)
  {
    GzSpellingSameLogicalPath(p);
    ResolutionFollowsLogicalPath(p + ".gz", p, base, vol);
  }

  /** A URI containing ".." anywhere is refused without probing the volume,
      whatever the volume holds. */
  lemma TraversalNeverProbes(uri: string, base: string, vol: set<string>)
    requires HasDotDot(uri)
    ensures ResolveFsPath(Some(uri), base, vol) == Missing([])
  {
  }

  // Concrete cases. The volume is mounted at "/littlefs".

  /** An example: with both "/a.html.gz" and "/a.html" present, "/a.html"
      is served compressed; without the ".gz" file it is served plain. */
  lemma CompressedVariantPreferred()
    ensures ResolveFsPath(Some("/a.html"), "/littlefs", {"/littlefs/a.html.gz", "/littlefs/a.html"})
            == Resolution(true, "/littlefs/a.html.gz", Html, true, ["/littlefs/a.html.gz"])
    ensures ResolveFsPath(Some("/a.html"), "/littlefs", {"/littlefs/a.html"})
            == Resolution(true, "/littlefs/a.html", Html, false, ["/littlefs/a.html.gz", "/littlefs/a.html"])
  {
    NoDotDot("/a.html");
    NormalizeKeepsPlainFile("/a.html");
    HtmlSpellingsAgree("/a");
    PageNames();
    AliasOfStem("/a");
  }

  /** One round of the candidate loop when the first candidate is absent in
      both forms: its two probes are recorded and the search moves on. */
  lemma SearchSkipsMissing(cands: seq<string>, base: string, vol: set<string>)
    requires |cands| > 0 && !Hit(base, cands[0], vol)
    ensures var rest := Search(cands[1..], base, vol);
            Search(cands, base, vol)
            == rest.(probed := [base + cands[0] + ".gz", base + cands[0]] + rest.probed)
  {
  }

  /** One round of the candidate loop when the plain form of the first
      candidate exists and the compressed one does not. */
  lemma SearchFindsPlain(cands: seq<string>, base: string, vol: set<string>)
    requires |cands| > 0 && base + cands[0] + ".gz" !in vol && base + cands[0] in vol
    ensures Search(cands, base, vol)
            == Resolution(true, base + cands[0], ContentTypeForPath(cands[0]), false,
                          [base + cands[0] + ".gz", base + cands[0]])
  {
  }

  /** A ".htm" file request tries its own name, then the ".html" name. */
  lemma HtmCandidates(stem: string)
    requires |stem| > 0 && stem[0] == '/'
    ensures Candidates(Normalize(stem + ".htm")) == [stem + ".htm", stem + ".html"]
  {
    var u := stem + ".htm";
    assert u[|u| - 1] == 'm';
    assert !EndsWith(u, ".gz") by {
      assert u[|u| - 1] != 'z';
    }
    NormalizeKeepsPlainFile(u);
    AliasOfStem(stem);
    CandidatesAreAliasPair(u);
  }

  /** A ".htm" request whose own spelling is absent is served from the
      ".html" file, plain when no compressed copy exists, with the HTML
      type, after probing all four names in order. */
  lemma HtmFallsBackToHtml(stem: string, base: string, vol: set<string>)
    requires |stem| > 0 && stem[0] == '/' && !HasDotDot(stem + ".htm")
    requires base + (stem + ".htm") + ".gz" !in vol && base + (stem + ".htm") !in vol
    requires base + (stem + ".html") + ".gz" !in vol && base + (stem + ".html") in vol
    ensures ResolveFsPath(Some(stem + ".htm"), base, vol)
            == Resolution(true, base + (stem + ".html"), Html, false,
                          [base + (stem + ".htm") + ".gz", base + (stem + ".htm"),
                           base + (stem + ".html") + ".gz", base + (stem + ".html")])
  {
    var u := stem + ".htm";
    var html := stem + ".html";
    var cands := [u, html];
    HtmCandidates(stem);
    assert ResolveFsPath(Some(u), base, vol) == Search(cands, base, vol);
    assert cands[1..] == [html];
    SearchFindsPlain([html], base, vol);
    SearchSkipsMissing(cands, base, vol);
    HtmlSpellingsAgree(stem);
  }

  /** An example: "/page.htm" is served from "/page.html" when only that
      exists. */
  lemma HtmAliasFindsHtml()
    ensures ResolveFsPath(Some("/page.htm"), "/littlefs", {"/littlefs/page.html"})
            == Resolution(true, "/littlefs/page.html", Html, false,
                          ["/littlefs/page.htm.gz", "/littlefs/page.htm",
                           "/littlefs/page.html.gz", "/littlefs/page.html"])
  {
    NoDotDot("/page.htm");
    PageNames();
    HtmFallsBackToHtml("/page", "/littlefs", {"/littlefs/page.html"});
  }

  /** An example: "/../secrets.txt" is refused even when the file it names
      exists. */
  lemma SecretsRefused()
    ensures ResolveFsPath(Some("/../secrets.txt"), "/littlefs", {"/secrets.txt", "/littlefs/../secrets.txt"})
            == Missing([])
  {
    assert DotDotAt("/../secrets.txt", 1);
  }

  /** A helper for the concrete cases: the file names they probe, spelled
      as the resolver builds them. */
  lemma PageNames()
    ensures "/a.html" == "/a" + ".html"
    ensures "/littlefs" + "/a.html" + ".gz" == "/littlefs/a.html.gz"
    ensures "/littlefs" + "/a.html" == "/littlefs/a.html"
    ensures "/page.htm" == "/page" + ".htm"
    ensures "/littlefs" + ("/page" + ".htm") + ".gz" == "/littlefs/page.htm.gz"
    ensures "/littlefs" + ("/page" + ".htm") == "/littlefs/page.htm"
    ensures "/littlefs" + ("/page" + ".html") + ".gz" == "/littlefs/page.html.gz"
    ensures "/littlefs" + ("/page" + ".html") == "/littlefs/page.html"
  {
  }

  /** A helper for the concrete cases: a string with no two consecutive dots. */
  lemma NoDotDot(s: string)
    requires forall i :: 0 <= i < |s| - 1 ==> !(s[i] == '.' && s[i + 1] == '.')
    ensures !HasDotDot(s)
  {
  }
}
