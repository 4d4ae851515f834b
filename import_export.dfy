/**
 * Import and export of graphs (js/import_export.js): the validation and conversion of a parsed
 * JSON document into a graph, and the text offered for download, in JSON or as an Atom feed
 * (RFC 4287, section 4.1.1 for `atom:feed` and section 4.1.2 for `atom:entry`).
 */
module ImportExport {
  import opened Wrappers
  import opened Chars
  import opened JsValue
  import opened Vector
  import opened Vertices
  import opened Dom

  // ----- Import -----

  /** Why a conversion stops part-way: an exception of the source, or a position the model cannot hold. */
  datatype Failure = TypeError | NonNumericPosition

  /** The outcome of `convertJsonStringToGraph`. */
  datatype Conversion =
    | Accepted(graph: Graph)
    | Rejected
    | Failed(failure: Failure)

  /** The guard of lines 94-98: metadata is an object and vertices is an array. */
  predicate IsGraphShaped(buffer: Value) {
    Truthy(buffer) &&
    Truthy(Property(buffer, "metadata")) && IsObject(Property(buffer, "metadata")) &&
    Truthy(Property(buffer, "vertices")) && Property(buffer, "vertices").Arr?
  }

  lemma GraphShapedIsObject(buffer: Value)
    ensures IsGraphShaped(buffer) <==>
      buffer.Obj? && IsObject(Get(buffer.fields, "metadata")) && Get(buffer.fields, "vertices").Arr?
  {}

  /**
   * The properties the constructor can read from an array entry: an object's own, none for an
   * array, and `None` for a primitive or null, on which `props.members.length` throws.
   */
  function EntryProps(e: Value): Option<Props> {
    match e
    case Obj(fields) => Some(fields)
    case Arr(_) => Some(map[])
    case _ => None
  }

  /** The outcome of converting one entry, or of the entries so far. */
  datatype Entry = Made(v: Vertex) | Stop(failure: Failure)
  datatype Entries = Made(vertices: seq<Vertex>) | Stop(failure: Failure)

  /** Lines 102-104 for one entry: construct the vertex, then rebuild its position from x and y. */
  function ConvertEntry(e: Value, fallback: Coords): Entry {
    match EntryProps(e)
    case None => Entry.Stop(TypeError)
    case Some(props) =>
      match NewVertex(props, fallback)
      case None => Entry.Stop(NonNumericPosition)
      case Some(v) => Entry.Made(v.(position := Coords(v.position.x, v.position.y)))
  }

  predicate EntryUsable(e: Value) {
    EntryProps(e).Some? && PositionUsable(Get(EntryProps(e).value, "position"))
  }

  lemma ConvertEntryMade(e: Value, fallback: Coords)
    ensures ConvertEntry(e, fallback).Made? <==> EntryUsable(e)
    ensures EntryUsable(e) ==> Some(ConvertEntry(e, fallback).v) == NewVertex(EntryProps(e).value, fallback)
  {}

  /**
   * The loop of lines 100-105 over `items`: the converted vertices, or the failure of the
   * first entry that cannot be converted. `fallback(i)` is the random point for entry `i`.
   */
  function ConvertEntries(items: seq<Value>, fallback: nat -> Coords): Entries
    decreases |items|
  {
    if items == [] then Entries.Made([])
    else
      match ConvertEntries(items[..|items| - 1], fallback)
      case Stop(f) => Entries.Stop(f)
      case Made(vs) =>
        match ConvertEntry(items[|items| - 1], fallback(|items| - 1))
        case Stop(f) => Entries.Stop(f)
        case Made(v) => Entries.Made(vs + [v])
  }

  /**
   * `convertJsonStringToGraph` on the parsed document `buffer`. Lines 94-98 and 109-114: a
   * document of any other shape is rejected; an accepted graph keeps the document's metadata.
   */
  function Convert(buffer: Value, fallback: nat -> Coords): (r: Conversion)
    ensures r == Rejected <==> !IsGraphShaped(buffer)
    ensures r.Accepted? ==> r.graph.metadata == Property(buffer, "metadata")
  {
    if !IsGraphShaped(buffer) then Rejected
    else
      match ConvertEntries(Property(buffer, "vertices").items, fallback)
      case Stop(f) => Failed(f)
      case Made(vs) => Accepted(Graph(Property(buffer, "metadata"), vs))
  }

  /** Once an entry fails, the conversion of every longer prefix fails the same way. */
  lemma {:induction false} StopPersists(items: seq<Value>, fallback: nat -> Coords, k: nat, f: Failure)
    requires k <= |items|
    requires ConvertEntries(items[..k], fallback) == Entries.Stop(f)
    ensures ConvertEntries(items, fallback) == Entries.Stop(f)
    decreases |items| - k
  {
    if k < |items| {
      assert items[..k + 1][..k] == items[..k];
      StopPersists(items, fallback, k + 1, f);
    } else {
      assert items[..k] == items;
    }
  }

  /** The entries convert exactly when each of them can, one vertex per entry in the same order. */
  lemma {:induction false} ConvertEntriesMade(items: seq<Value>, fallback: nat -> Coords)
    ensures ConvertEntries(items, fallback).Made? <==> forall i :: 0 <= i < |items| ==> EntryUsable(items[i])
    ensures ConvertEntries(items, fallback).Made? ==>
      |ConvertEntries(items, fallback).vertices| == |items| &&
      forall i :: 0 <= i < |items| ==>
        ConvertEntry(items[i], fallback(i)) == Entry.Made(ConvertEntries(items, fallback).vertices[i])
    decreases |items|
  {
    if items != [] {
      var init := items[..|items| - 1];
      var last := items[|items| - 1];
      ConvertEntriesMade(init, fallback);
      ConvertEntryMade(last, fallback(|items| - 1));
      assert forall i :: 0 <= i < |init| ==> init[i] == items[i];
    }
  }

  /** A document is accepted exactly when it has the graph shape and every entry can be converted. */
  lemma ConvertAccepts(buffer: Value, fallback: nat -> Coords)
    ensures Convert(buffer, fallback).Accepted? <==>
      IsGraphShaped(buffer) &&
      forall i :: 0 <= i < |Property(buffer, "vertices").items| ==>
        EntryUsable(Property(buffer, "vertices").items[i])
  {
    if IsGraphShaped(buffer) {
      ConvertEntriesMade(Property(buffer, "vertices").items, fallback);
    }
  }

  /**
   * An accepted graph keeps the metadata, has one normalised vertex per entry in entry order,
   * and each vertex keeps the x and y of a supplied position.
   */
  lemma ConvertAcceptedGraph(buffer: Value, fallback: nat -> Coords, g: Graph)
    requires Convert(buffer, fallback) == Accepted(g)
    ensures g.metadata == Property(buffer, "metadata")
    ensures |g.vertices| == |Property(buffer, "vertices").items|
    ensures AllNormalised(g.vertices)
    ensures forall i :: 0 <= i < |g.vertices| ==>
      var e := Property(buffer, "vertices").items[i];
      EntryUsable(e) &&
      Some(g.vertices[i]) == NewVertex(EntryProps(e).value, fallback(i)) &&
      (Truthy(Get(EntryProps(e).value, "position")) ==>
        g.vertices[i].position.x == Get(Get(EntryProps(e).value, "position").fields, "x").n &&
        g.vertices[i].position.y == Get(Get(EntryProps(e).value, "position").fields, "y").n)
  {
    var items := Property(buffer, "vertices").items;
    ConvertEntriesMade(items, fallback);
    forall i | 0 <= i < |g.vertices|
      ensures EntryUsable(items[i]) && Some(g.vertices[i]) == NewVertex(EntryProps(items[i]).value, fallback(i))
    {
      ConvertEntryMade(items[i], fallback(i));
    }
  }

  /** The method of lines 90-115, overwriting the entries one by one. */
  method ConvertJsonStringToGraph(buffer: Value, fallback: nat -> Coords) returns (c: Conversion)
    ensures c == Convert(buffer, fallback)
  {
    if !IsGraphShaped(buffer) {
      return Rejected;
    }
    var items := Property(buffer, "vertices").items;
    var vs: seq<Vertex> := [];
    var i := 0;
    while i < |items|
      invariant 0 <= i <= |items|
      invariant ConvertEntries(items[..i], fallback) == Entries.Made(vs)
    {
      assert items[..i + 1][..i] == items[..i];
      match ConvertEntry(items[i], fallback(i))
      case Stop(f) =>
        assert ConvertEntries(items[..i + 1], fallback) == Entries.Stop(f);
        StopPersists(items, fallback, i + 1, f);
        return Failed(f);
      case Made(v) =>
        vs := vs + [v];
      i := i + 1;
    }
    assert items[..|items|] == items;
    return Accepted(Graph(Property(buffer, "metadata"), vs));
  }

  /** The vertex entries of that document. */
  function VertexDocuments(vs: seq<Vertex>): (r: seq<Value>)
    ensures |r| == |vs| && forall i :: 0 <= i < |vs| ==> r[i] == Obj(ToProps(vs[i]))
  {
    seq(|vs|, i requires 0 <= i < |vs| => Obj(ToProps(vs[i])))
  }

  /** The document `JSON.stringify` writes for a graph, as it is parsed back. */
  function GraphDocument(g: Graph): Value {
    Obj(map["metadata" := g.metadata, "vertices" := Arr(VertexDocuments(g.vertices))])
  }

  /** Every vertex entry of the document converts back to its normalised vertex. */
  lemma VertexDocumentsConvert(vs: seq<Vertex>, fallback: nat -> Coords)
    requires AllNormalised(vs)
    ensures ConvertEntries(VertexDocuments(vs), fallback) == Entries.Made(vs)
  {
    var items := VertexDocuments(vs);
    forall i | 0 <= i < |items|
      ensures EntryUsable(items[i]) && ConvertEntry(items[i], fallback(i)) == Entry.Made(vs[i])
    {
      NewVertexOfProps(vs[i], fallback(i));
      RenewNormalised(vs[i]);
      ConvertEntryMade(items[i], fallback(i));
    }
    ConvertEntriesMade(items, fallback);
    var made := ConvertEntries(items, fallback).vertices;
    assert forall i :: 0 <= i < |vs| ==> made[i] == vs[i];
    assert made == vs;
  }

  /** Exporting a graph of normalised vertices and importing it again gives the same graph. */
  lemma ExportThenImport(g: Graph, fallback: nat -> Coords)
    requires IsObject(g.metadata) && AllNormalised(g.vertices)
    ensures Convert(GraphDocument(g), fallback) == Accepted(g)
  {
    var doc := GraphDocument(g);
    assert Property(doc, "metadata") == g.metadata;
    assert Property(doc, "vertices") == Arr(VertexDocuments(g.vertices));
    assert IsGraphShaped(doc);
    VertexDocumentsConvert(g.vertices, fallback);
  }

  // ----- Export -----

  const XmlDeclaration := "<?xml version=\"1.0\" encoding=\"utf-8\"?>"
  const FeedOpen := "<feed xmlns=\"http://www.w3.org/2005/Atom\">"
  const FeedClose := "</feed>"

  /**
   * `authors[0]`: `None` when `authors` is undefined or null (a TypeError), otherwise the
   * first element of an array, the first character of a text, or an object's property "0".
   */
  function FirstAuthor(authors: Value): Option<Value> {
    match authors
    case Undefined => None
    case Null => None
    case Arr(items) => Some(if |items| > 0 then items[0] else Undefined)
    case Str(s) => Some(if |s| > 0 then Str([s[0]]) else Undefined)
    case Obj(fields) => Some(Get(fields, "0"))
    case _ => Some(Undefined)
  }

  /** The link to the site that the feed and every entry carry. */
  function SiteLink(siteUrl: string): string {
    "<link href=\"" + siteUrl + "\"/>"
  }

  /** Lines 29-35: the declaration, the feed's opening tag and its head; `None` if reading it throws. */
  function AtomHead(metadata: Value, siteUrl: string): Option<string> {
    if IsNullish(metadata) then None
    else
      match FirstAuthor(Property(metadata, "authors"))
      case None => None
      case Some(author) => Some(XmlDeclaration + FeedOpen + HeadElements(metadata, author, siteUrl))
  }

  /** Lines 39-43: the entry of one vertex. */
  function AtomEntry(v: Vertex, metadata: Value, siteUrl: string): string {
    Tag("entry",
      Tag("title", TagText(v.title), "") +
      SiteLink(siteUrl) +
      Tag("updated", TagText(Property(metadata, "created")), "") +
      Tag("summary", TagText(v.description), ""),
      "")
  }

  /** The texts of `parts` one after the other. */
  function Concat(parts: seq<string>): string
    decreases |parts|
  {
    if parts == [] then "" else Concat(parts[..|parts| - 1]) + parts[|parts| - 1]
  }

  lemma ConcatAppend(parts: seq<string>, p: string)
    ensures Concat(parts + [p]) == Concat(parts) + p
  {
    assert (parts + [p])[..|parts|] == parts;
  }

  lemma {:induction false} ConcatConcat(a: seq<string>, b: seq<string>)
    ensures Concat(a + b) == Concat(a) + Concat(b)
    decreases |b|
  {
    if b == [] {
      assert a + b == a;
    } else {
      var init, last := b[..|b| - 1], b[|b| - 1];
      assert a + b == (a + init) + [last];
      ConcatConcat(a, init);
      ConcatAppend(a + init, last);
    }
  }

  /** The text `entry` gives for each vertex, in array order. */
  function Texts(vs: seq<Vertex>, entry: Vertex -> string): (r: seq<string>)
    ensures |r| == |vs|
    ensures forall i :: 0 <= i < |vs| ==> r[i] == entry(vs[i])
  {
    seq(|vs|, i requires 0 <= i < |vs| => entry(vs[i]))
  }

  /** Vertex `k`'s text follows the texts of the vertices before it and precedes the others. */
  lemma ConcatTextsAt(vs: seq<Vertex>, k: nat, entry: Vertex -> string)
    requires k < |vs|
    ensures Concat(Texts(vs, entry)) ==
      Concat(Texts(vs[..k], entry)) + entry(vs[k]) + Concat(Texts(vs[k + 1..], entry))
  {
    var t := Texts(vs, entry);
    assert t == (Texts(vs[..k], entry) + [entry(vs[k])]) + Texts(vs[k + 1..], entry);
    ConcatConcat(Texts(vs[..k], entry) + [entry(vs[k])], Texts(vs[k + 1..], entry));
    ConcatAppend(Texts(vs[..k], entry), entry(vs[k]));
  }

  lemma ConcatTextsAppend(vs: seq<Vertex>, v: Vertex, entry: Vertex -> string)
    ensures Concat(Texts(vs + [v], entry)) == Concat(Texts(vs, entry)) + entry(v)
  {
    assert Texts(vs + [v], entry) == Texts(vs, entry) + [entry(v)];
    ConcatAppend(Texts(vs, entry), entry(v));
  }

  /** The entries of the vertices, one after the other in array order. */
  function AtomEntries(vs: seq<Vertex>, metadata: Value, siteUrl: string): string {
    Concat(Texts(vs, v => AtomEntry(v, metadata, siteUrl)))
  }

  /** The whole feed, `None` when reading the head throws. */
  function AtomFeed(g: Graph, siteUrl: string): Option<string> {
    match AtomHead(g.metadata, siteUrl)
    case None => None
    case Some(head) => Some(head + AtomEntries(g.vertices, g.metadata, siteUrl) + FeedClose)
  }

  lemma AtomEntriesAppend(vs: seq<Vertex>, v: Vertex, metadata: Value, siteUrl: string)
    ensures AtomEntries(vs + [v], metadata, siteUrl) ==
      AtomEntries(vs, metadata, siteUrl) + AtomEntry(v, metadata, siteUrl)
  {
    ConcatTextsAppend(vs, v, v => AtomEntry(v, metadata, siteUrl));
  }

  /** There is one entry per vertex, in array order: vertex `k`'s entry follows those of the vertices before it. */
  lemma AtomEntryOfVertex(vs: seq<Vertex>, k: nat, metadata: Value, siteUrl: string)
    requires k < |vs|
    ensures AtomEntries(vs, metadata, siteUrl) ==
      AtomEntries(vs[..k], metadata, siteUrl) + AtomEntry(vs[k], metadata, siteUrl) +
      AtomEntries(vs[k + 1..], metadata, siteUrl)
  {
    ConcatTextsAt(vs, k, v => AtomEntry(v, metadata, siteUrl));
  }

  /** The elements of the feed's head after the opening tag. */
  function HeadElements(metadata: Value, author: Value, siteUrl: string): string {
    Tag("title", TagText(Property(metadata, "title")), "") +
    Tag("subtitle", "A social graph", "") +
    SiteLink(siteUrl) +
    Tag("updated", TagText(Property(metadata, "created")), "") +
    Tag("author", Tag("name", TagText(author), ""), "")
  }

  /**
   * A feed is the XML declaration, the Atom feed tag, the head elements, the entries and the
   * closing tag, in that order.
   */
  lemma AtomFeedFrame(g: Graph, siteUrl: string)
    requires AtomFeed(g, siteUrl).Some?
    ensures FirstAuthor(Property(g.metadata, "authors")).Some?
    ensures AtomFeed(g, siteUrl).value ==
      XmlDeclaration + FeedOpen +
      HeadElements(g.metadata, FirstAuthor(Property(g.metadata, "authors")).value, siteUrl) +
      AtomEntries(g.vertices, g.metadata, siteUrl) + FeedClose
  {}

  /** The feed is read from the metadata's title, created date and first author. */
  lemma AtomHeadSources(metadata: Value, siteUrl: string)
    requires metadata.Obj? && Get(metadata.fields, "authors").Arr?
    requires |Get(metadata.fields, "authors").items| > 0
    ensures AtomHead(metadata, siteUrl) == Some(XmlDeclaration + FeedOpen +
      HeadElements(metadata, Get(metadata.fields, "authors").items[0], siteUrl))
  {}

  /** A feed can be read only when the metadata has authors. */
  lemma AtomNeedsAuthors(g: Graph, siteUrl: string)
    ensures AtomFeed(g, siteUrl).None? <==>
      IsNullish(g.metadata) || IsNullish(Property(g.metadata, "authors"))
  {}

  /** What `download` shows: a panel, or nothing because it threw. */
  datatype Shown = Panel(head: string, body: string) | Throws

  const NotImplemented := "An error happened, because this function is not yet implemented :-("

  /** The panel for the text `raw`: the error panel for an empty text. */
  function OutputPanel(raw: string): Shown {
    if raw == "" then Panel("Argh!", NotImplemented) else Panel("Output", Tag("textarea", raw, ""))
  }

  /**
   * `download()`, with the two menu values as arguments; `json` is what `JSON.stringify(graph)`
   * returns, which the model does not compute.
   */
  function DownloadResult(g: Graph, exportData: string, exportFormat: string, siteUrl: string, json: string): (r: Shown)
    ensures r.Throws? <==> exportData == "Graph" && exportFormat == "Atom" && AtomFeed(g, siteUrl).None?
    ensures r.Panel? ==>
      (r.head == "Argh!" && r.body == NotImplemented) ||
      (r.head == "Output" && |r.body| > |Open("textarea", "")| + |Close("textarea")| &&
       r.body[..|Open("textarea", "")|] == Open("textarea", "") &&
       r.body[|r.body| - |Close("textarea")|..] == Close("textarea"))
  {
    if exportData == "Graph" && exportFormat == "JSON" then OutputPanel(json)
    else if exportData == "Graph" && exportFormat == "Atom" then
      match AtomFeed(g, siteUrl)
      case None => Throws
      case Some(feed) => OutputPanel(feed)
    else OutputPanel("")
  }

  /** Anything but a graph in JSON or Atom leaves the text empty and shows the error panel. */
  lemma DownloadOtherChoices(g: Graph, exportData: string, exportFormat: string, siteUrl: string, json: string)
    requires exportData != "Graph" || (exportFormat != "JSON" && exportFormat != "Atom")
    ensures DownloadResult(g, exportData, exportFormat, siteUrl, json) == Panel("Argh!", NotImplemented)
  {}

  /** An Atom export that can read its head always shows the feed, never the error panel. */
  lemma DownloadAtom(g: Graph, siteUrl: string, json: string)
    requires AtomFeed(g, siteUrl).Some?
    ensures DownloadResult(g, "Graph", "Atom", siteUrl, json) ==
      Panel("Output", Tag("textarea", AtomFeed(g, siteUrl).value, ""))
  {
    var feed := AtomFeed(g, siteUrl).value;
    assert |feed| >= |FeedClose|;
    assert feed != "";
  }

  /** Lines 29-46: the feed, built with `+=` one entry at a time. */
  method BuildAtomFeed(g: Graph, siteUrl: string) returns (feed: Option<string>)
    ensures feed == AtomFeed(g, siteUrl)
  {
    var head := AtomHead(g.metadata, siteUrl);
    if head.None? {
      return None;
    }
    var raw := head.value;
    var i := 0;
    while i < |g.vertices|
      invariant 0 <= i <= |g.vertices|
      invariant raw == head.value + AtomEntries(g.vertices[..i], g.metadata, siteUrl)
    {
      ghost var before := AtomEntries(g.vertices[..i], g.metadata, siteUrl);
      var entry := AtomEntry(g.vertices[i], g.metadata, siteUrl);
      assert g.vertices[..i + 1] == g.vertices[..i] + [g.vertices[i]];
      AtomEntriesAppend(g.vertices[..i], g.vertices[i], g.metadata, siteUrl);
      assert AtomEntries(g.vertices[..i + 1], g.metadata, siteUrl) == before + entry;
      AppendAssociative(head.value, before, entry);
      raw := raw + entry;
      i := i + 1;
    }
    assert g.vertices[..|g.vertices|] == g.vertices;
    return Some(raw + FeedClose);
  }

  /** The method of lines 12-51; the Atom branch throws when the feed's head cannot be read. */
  method Download(g: Graph, exportData: string, exportFormat: string, siteUrl: string, json: string)
    returns (shown: Shown)
    ensures shown == DownloadResult(g, exportData, exportFormat, siteUrl, json)
  {
    var raw := "";
    if exportData == "Graph" {
      if exportFormat == "JSON" {
        raw := json;
      } else if exportFormat == "Atom" {
        var feed := BuildAtomFeed(g, siteUrl);
        if feed.None? {
          return Throws;
        }
        raw := feed.value;
      }
    }
    shown := OutputPanel(raw);
  }
}
