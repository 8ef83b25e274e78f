/** The static-asset resolver `resolve_fs_path`: it maps a request URI to a
    physical file on the mounted volume, preferring a pre-compressed `.gz`
    sibling, trying the `.html`/`.htm` alias, and deriving the content type
    from the logical name. The volume is the set of full paths that exist
    (the component's `file_exists`). */
module Resolver {
  import opened Types
  import opened Text
  import opened ContentType

  /** The out-parameters of `resolve_fs_path` and its boolean result, plus
      the full paths it probed on the volume, in order. */
  datatype Resolution = Resolution(
    found: bool,
    fullPath: string,
    ctype: string,
    isGz: bool,
    probed: seq<string>)

  /** The cleared outputs of a failed resolution after the given probes. */
  function Missing(probed: seq<string>): Resolution
  {
    Resolution(false, "", "", false, probed)
  }

  /** A URI the resolver accepts: present, starting with '/', free of "..". */
  predicate Acceptable(uri: Option<string>)
  {
    uri.Some? && |uri.value| > 0 && uri.value[0] == '/' && !HasDotDot(uri.value)
  }

  /** The logical path of an accepted URI: a trailing '/' gets
      "index.html", the bare root becomes "/index.html", and then one
      trailing ".gz" is dropped. */
  function Normalize(uri: string): (logical: string)
    requires |uri| > 0 && uri[0] == '/'
    ensures |logical| > 0 && logical[0] == '/'
  {
    var appended := if uri[|uri| - 1] == '/' then uri + "index.html" else uri;
    var rooted := if appended == "/" then "/index.html" else appended;
    if EndsWith(rooted, ".gz") && |rooted| > 3 then rooted[..|rooted| - 3] else rooted
  }

  /** The other spelling of an HTML page name. */
  function Alias(path: string): string
    requires EndsWith(path, ".html") || EndsWith(path, ".htm")
  {
    if EndsWith(path, ".html") then path[..|path| - 5] + ".htm"
    else path[..|path| - 4] + ".html"
  }

  /** The logical path first, then its alias when it names an HTML page. */
  function Candidates(logical: string): (cands: seq<string>)
    ensures 1 <= |cands| <= 2 && cands[0] == logical
    ensures |cands| == 2 <==> EndsWith(logical, ".html") || EndsWith(logical, ".htm")
  {
    if EndsWith(logical, ".html") then
      var alt := logical[..|logical| - 5] + ".htm";
      assert alt[|alt| - 1] != logical[|logical| - 1];
      if alt != logical then [logical, alt] else [logical]
    else if EndsWith(logical, ".htm") then
      var alt := logical[..|logical| - 4] + ".html";
      assert alt[|alt| - 1] != logical[|logical| - 1];
      if alt != logical then [logical, alt] else [logical]
    else
      [logical]
  }

  /** The full paths the resolver may probe for a candidate list, in the
      order it probes them: for each candidate its ".gz" sibling, then the
      candidate itself. */
  function ProbeOrder(cands: seq<string>, base: string): (order: seq<string>)
    ensures |order| == 2 * |cands|
  {
    if cands == [] then []
    else [base + cands[0] + ".gz", base + cands[0]] + ProbeOrder(cands[1..], base)
  }

  /** Candidate `c` exists on the volume, compressed or plain. */
  predicate Hit(base: string, c: string, vol: set<string>)
  {
    base + c + ".gz" in vol || base + c in vol
  }

  /** The resolution `r` serves candidate `c`: the type is that of `c`, and
      the physical file is the ".gz" sibling exactly when `isGz` is set. */
  predicate Serves(r: Resolution, base: string, c: string)
  {
    && r.ctype == ContentTypeForPath(c)
    && (r.isGz ==> r.fullPath == base + c + ".gz")
    && (!r.isGz ==> r.fullPath == base + c)
  }

  /** No path among the first `n` of `paths` exists on the volume. */
  predicate NoneExist(paths: seq<string>, n: int, vol: set<string>)
    requires 0 <= n <= |paths|
  {
    forall i :: 0 <= i < n ==> paths[i] !in vol
  }

  /** The candidate loop of `resolve_fs_path`: the first existing path in
      probe order wins. */
  function Search(cands: seq<string>, base: string, vol: set<string>): (r: Resolution)
    ensures |r.probed| <= |ProbeOrder(cands, base)|
    ensures r.probed == ProbeOrder(cands, base)[..|r.probed|]
    ensures r.found <==> exists k :: 0 <= k < |cands| && Hit(base, cands[k], vol)
    ensures r.found ==>
              && |r.probed| > 0
              && r.fullPath == r.probed[|r.probed| - 1]
              && r.fullPath in vol
              && NoneExist(r.probed, |r.probed| - 1, vol)
              && (exists k :: 0 <= k < |cands| && Serves(r, base, cands[k]))
    ensures !r.found ==>
              && r == Missing(ProbeOrder(cands, base))
              && NoneExist(r.probed, |r.probed|, vol)
  {
    if cands == [] then Missing([])
    else
      var c := cands[0];
      var gz := base + c + ".gz";
      var plain := base + c;
      if gz in vol then
        assert Serves(Resolution(true, gz, ContentTypeForPath(c), true, [gz]), base, cands[0]);
        Resolution(true, gz, ContentTypeForPath(c), true, [gz])
      else if plain in vol then
        assert Serves(Resolution(true, plain, ContentTypeForPath(c), false, [gz, plain]), base, cands[0]);
        Resolution(true, plain, ContentTypeForPath(c), false, [gz, plain])
      else
        var rest := Search(cands[1..], base, vol);
        var r := rest.(probed := [gz, plain] + rest.probed);
        PrependMissedCandidate(cands, base, vol, rest);
        assert forall k :: 1 <= k < |cands| ==> cands[k] == cands[1..][k - 1];
        assert r.found ==> exists k :: 0 <= k < |cands| && Serves(r, base, cands[k]) by {
          if r.found {
            var k :| 0 <= k < |cands[1..]| && Serves(rest, base, cands[1..][k]);
            assert Serves(r, base, cands[k + 1]);
          }
        }
        r
  }

  /** Putting the two missed probes of the first candidate in front of the
      search of the others keeps the probes a prefix of the probe order and
      keeps every probe before the last one a miss. */
  lemma PrependMissedCandidate(cands: seq<string>, base: string, vol: set<string>, rest: Resolution)
    requires cands != []
    requires base + cands[0] + ".gz" !in vol && base + cands[0] !in vol
    requires |rest.probed| <= |ProbeOrder(cands[1..], base)|
    requires rest.probed == ProbeOrder(cands[1..], base)[..|rest.probed|]
    requires rest.found ==> |rest.probed| > 0 && NoneExist(rest.probed, |rest.probed| - 1, vol)
    requires !rest.found ==> NoneExist(rest.probed, |rest.probed|, vol)
    ensures var p := [base + cands[0] + ".gz", base + cands[0]] + rest.probed;
            && |p| <= |ProbeOrder(cands, base)|
            && p == ProbeOrder(cands, base)[..|p|]
            && (rest.found ==> NoneExist(p, |p| - 1, vol))
            && (!rest.found ==> NoneExist(p, |p|, vol))
  {
    var p := [base + cands[0] + ".gz", base + cands[0]] + rest.probed;
    assert ProbeOrder(cands, base) == [base + cands[0] + ".gz", base + cands[0]] + ProbeOrder(cands[1..], base);
    forall i | 0 <= i < |p| && (i < |p| - 1 || !rest.found) ensures p[i] !in vol {
      if i >= 2 { assert p[i] == rest.probed[i - 2]; }
    }
  }

  /** `resolve_fs_path`: reject a missing URI, one not starting with '/' and
      one containing ".." before touching the volume; otherwise search the
      candidates of the normalized path. */
  function ResolveFsPath(uri: Option<string>, base: string, vol: set<string>): (r: Resolution)
    ensures !Acceptable(uri) ==> r == Missing([])
    ensures r.found ==> Acceptable(uri)
  {
    if uri.None? || |uri.value| == 0 || uri.value[0] != '/' then Missing([])
    else if HasDotDot(uri.value) then Missing([])
    else Search(Candidates(Normalize(uri.value)), base, vol)
  }
}
