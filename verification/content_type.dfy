/** The extension-to-MIME-type table of `content_type_for_path`. The type is
    always derived from the logical path, never from a `.gz` physical name. */
module ContentType {
  import opened Text

  const Html: string := "text/html; charset=utf-8"
  const Css: string := "text/css; charset=utf-8"
  const JavaScript: string := "application/javascript; charset=utf-8"
  const Json: string := "application/json; charset=utf-8"
  const Svg: string := "image/svg+xml"
  const Png: string := "image/png"
  const Jpeg: string := "image/jpeg"
  const Gif: string := "image/gif"
  const Icon: string := "image/x-icon"
  const Woff2: string := "font/woff2"
  const Woff: string := "font/woff"
  const Ttf: string := "font/ttf"
  const PlainText: string := "text/plain; charset=utf-8"

  /** The extension table in the order `content_type_for_path` tests it:
      extension and the MIME type it selects. */
  const Table: seq<(string, string)> := [
    (".htm", Html), (".html", Html), (".css", Css), (".js", JavaScript),
    (".json", Json), (".svg", Svg), (".png", Png), (".jpg", Jpeg),
    (".jpeg", Jpeg), (".gif", Gif), (".ico", Icon), (".woff2", Woff2),
    (".woff", Woff), (".ttf", Ttf), (".map", Json)
  ]

  /** The longest extension in the table. */
  const LongestExtension: nat := 6

  /** The type of the first entry of `table` whose extension ends `path`,
      or plain text when none does. */
  function Lookup(table: seq<(string, string)>, path: string): string
  {
    if table == [] then PlainText
    else if EndsWith(path, table[0].0) then table[0].1
    else Lookup(table[1..], path)
  }

  /** The MIME type served for a logical path, chosen by its extension. */
  function ContentTypeForPath(path: string): string
  {
    Lookup(Table, path)
  }

  /** The table never selects plain text itself. */
  lemma TableTypesAreNotPlain()
    ensures forall i :: 0 <= i < |Table| ==> Table[i].1 != PlainText
  {
  }

  /** The type is plain text exactly when no extension of the table ends the
      path. */
  lemma DefaultOnlyWithoutExtension(path: string)
    ensures ContentTypeForPath(path) == PlainText
            <==> forall i :: 0 <= i < |Table| ==> !EndsWith(path, Table[i].0)
  {
    TableTypesAreNotPlain();
    LookupDefault(Table, path);
  }

  lemma {:induction false} LookupDefault(table: seq<(string, string)>, path: string)
    requires forall i :: 0 <= i < |table| ==> table[i].1 != PlainText
    ensures Lookup(table, path) == PlainText
            <==> forall i :: 0 <= i < |table| ==> !EndsWith(path, table[i].0)
  {
    if table != [] {
      LookupDefault(table[1..], path);
      assert forall i :: 1 <= i < |table| ==> table[i] == table[1..][i - 1];
    }
  }

  /** A path with an extension of the table gets the type of the first such
      extension. */
  lemma {:induction false} LookupFirstMatch(table: seq<(string, string)>, path: string, k: nat)
    requires k < |table| && EndsWith(path, table[k].0)
    requires forall i :: 0 <= i < k ==> !EndsWith(path, table[i].0)
    ensures Lookup(table, path) == table[k].1
  {
    if k > 0 {
      LookupFirstMatch(table[1..], path, k - 1);
    }
  }

  lemma {:induction false} LookupTail(table: seq<(string, string)>, prefix: string, tail: string)
    requires forall i :: 0 <= i < |table| ==> |table[i].0| <= |tail|
    ensures Lookup(table, prefix + tail) == Lookup(table, tail)
  {
    if table != [] {
      EndsWithTail(prefix, tail, table[0].0);
      LookupTail(table[1..], prefix, tail);
    }
  }

  /** Only the last six characters of a path decide its type: any prefix may
      be placed in front of a tail of that length without changing it. */
  lemma DependsOnlyOnSuffix(prefix: string, tail: string)
    requires |tail| >= LongestExtension
    ensures ContentTypeForPath(prefix + tail) == ContentTypeForPath(tail)
  {
    LookupTail(Table, prefix, tail);
  }

  /** The `.html` and `.htm` spellings of a page are served with one type. */
  lemma HtmlSpellingsAgree(stem: string)
    ensures ContentTypeForPath(stem + ".html") == Html
    ensures ContentTypeForPath(stem + ".htm") == Html
  {
    var html := stem + ".html";
    EndsWithAppend(stem, ".html");
    EndsWithAppend(stem, ".htm");
    assert Table[0].0 == ".htm" && Table[1].0 == ".html";
    assert !EndsWith(html, ".htm") by {
      assert html[|html| - 1] == 'l';
    }
    LookupFirstMatch(Table, stem + ".htm", 0);
    LookupFirstMatch(Table, html, 1);
  }

  /** A physical `.gz` name, if it were used, would be served as plain text:
      the resolver has to use the logical name to get the real type. */
  lemma GzNameWouldBePlain(logical: string)
    ensures ContentTypeForPath(logical + ".gz") == PlainText
  {
    var p := logical + ".gz";
    forall i | 0 <= i < |Table|
      ensures !EndsWith(p, Table[i].0)
    {
      var e := Table[i].0;
      assert e[|e| - 1] != 'z' && p[|p| - 1] == 'z';
    }
    DefaultOnlyWithoutExtension(p);
  }
}
