/**
 * The editor (js/user_interface.js): the licence table and its links, and the editing
 * operations on the global graph and the list of selected vertices, held here by the class
 * `Editor`.
 */
module UserInterface {
  import opened Wrappers
  import opened Chars
  import opened JsValue
  import opened Vector
  import opened Bootstrap
  import opened Vertices
  import opened Dom
  import opened ImportExport

  // ----- Licences -----

  datatype License = License(id: string, name: string, url: string)

  const CreativeCommons := "//creativecommons.org/licenses/"

  /** `predefinedLicenses`; the copyright notice names the current `year`. */
  function PredefinedLicenses(year: nat): seq<License> {
    [ License("GNU-GPL", "GNU General Public License", "//www.gnu.org/licenses/gpl.html"),
      License("GNU-FDL", "GNU Free Documentation License", "//www.gnu.org/licenses/fdl.html"),
      License("CC-BY-SA", "Creative Commons Attribution and Share-alike License", CreativeCommons + "by-sa/3.0/"),
      License("CC-BY", "Creative Commons Attribution", CreativeCommons + "by/3.0/"),
      License("CC-BY-NC-SA", "Creative Commons Attribution, Non-commercial and Share-alike",
        CreativeCommons + "by-nc-sa/3.0/"),
      License("CC-BY-NC-ND", "Creative Commons Attribution, Non-commercial and No-derivatives",
        CreativeCommons + "by-nc-nd/3.0/"),
      License("CC-0", "Creative Commons Public Domain Dedication", CreativeCommons + "../publicdomain/zero/1.0/"),
      License("COPYRIGHT", "Copyright " + DecimalString(year) + ". All right reserved",
        "//en.wikipedia.org/wiki/Copyright"),
      License("WTFPL", "Do What The Fuck You Want License", "http://www.wtfpl.net/about/") ]
  }

  predicate DistinctIds(ls: seq<License>) {
    forall i, j :: 0 <= i < j < |ls| ==> ls[i].id != ls[j].id
  }

  /** Nine licences with distinct identifiers; the default graph's licence is among them. */
  lemma PredefinedLicensesDistinct(year: nat)
    ensures |PredefinedLicenses(year)| == 9 && DistinctIds(PredefinedLicenses(year))
    ensures PredefinedLicenses(year)[7].id == "COPYRIGHT"
  {
    var ls := PredefinedLicenses(year);
    assert ls[0].id == "GNU-GPL" && ls[1].id == "GNU-FDL" && ls[2].id == "CC-BY-SA";
    assert ls[3].id == "CC-BY" && ls[4].id == "CC-BY-NC-SA" && ls[5].id == "CC-BY-NC-ND";
    assert ls[6].id == "CC-0" && ls[7].id == "COPYRIGHT" && ls[8].id == "WTFPL";
  }

  const LinksTarget := "target=_blank"

  /** `SocialGraphUrl` for the page's protocol. */
  function SocialGraphUrl(protocol: string): string {
    protocol + "//socialgraph.boudah.pl/"
  }

  /** The link `licenseLink` returns for a licence found in the table. */
  function LicenseAnchor(l: License): (a: string)
    ensures a != ""
  {
    "<a href=\"" + l.url + "\" " + LinksTarget + " title=\"" + l.name + "\"" + " rel=license>" + l.id + "</a>"
  }

  /** What `licenseLink(licenseId)` returns: the link of the first licence with that id, or nothing. */
  function LinkOf(ls: seq<License>, licenseId: Value): (r: string)
    ensures r == "" || exists l :: l in ls && Str(l.id) == licenseId && r == LicenseAnchor(l)
    decreases |ls|
  {
    if ls == [] then ""
    else if Str(ls[0].id) == licenseId then LicenseAnchor(ls[0])
    else LinkOf(ls[1..], licenseId)
  }

  /** An identifier that is in no licence of the table gives no link, and only such an identifier. */
  lemma {:induction false} LinkOfUnknown(ls: seq<License>, licenseId: Value)
    ensures LinkOf(ls, licenseId) == "" <==> forall i :: 0 <= i < |ls| ==> Str(ls[i].id) != licenseId
    decreases |ls|
  {
    if ls != [] {
      LinkOfUnknown(ls[1..], licenseId);
      assert forall i :: 1 <= i < |ls| ==> ls[i] == ls[1..][i - 1];
    }
  }

  /** With distinct identifiers, the link for a licence's identifier is that licence's link. */
  lemma {:induction false} LinkOfKnown(ls: seq<License>, k: nat)
    requires DistinctIds(ls) && k < |ls|
    ensures LinkOf(ls, Str(ls[k].id)) == LicenseAnchor(ls[k])
    decreases |ls|
  {
    if k > 0 {
      assert ls[0].id != ls[k].id;
      assert ls[1..][k - 1] == ls[k];
      LinkOfKnown(ls[1..], k - 1);
    }
  }

  /** The loop of `licenseLink` (lines 172-186), returning at the first match. */
  method LicenseLink(ls: seq<License>, licenseId: Value) returns (html: string)
    ensures html == LinkOf(ls, licenseId)
  {
    var i := 0;
    while i < |ls|
      invariant 0 <= i <= |ls|
      invariant LinkOf(ls, licenseId) == LinkOf(ls[i..], licenseId)
    {
      assert ls[i..][1..] == ls[i + 1..];
      if Str(ls[i].id) == licenseId {
        return LicenseAnchor(ls[i]);
      }
      i := i + 1;
    }
    return "";
  }

  /** `o[key] = value` on an object's (key, value) pairs in insertion order. */
  function Put(entries: seq<(string, string)>, key: string, value: string): seq<(string, string)>
    decreases |entries|
  {
    if entries == [] then [(key, value)]
    else if entries[0].0 == key then [(key, value)] + entries[1..]
    else [entries[0]] + Put(entries[1..], key, value)
  }

  /** The map from licence ids to names that `savePanel` builds by assignment. */
  function ChoicesOf(ls: seq<License>): seq<(string, string)>
    decreases |ls|
  {
    if ls == [] then [] else Put(ChoicesOf(ls[..|ls| - 1]), ls[|ls| - 1].id, ls[|ls| - 1].name)
  }

  /** A key that is new goes to the end. */
  lemma {:induction false} PutNew(entries: seq<(string, string)>, key: string, value: string)
    requires forall i :: 0 <= i < |entries| ==> entries[i].0 != key
    ensures Put(entries, key, value) == entries + [(key, value)]
    decreases |entries|
  {
    if entries != [] {
      PutNew(entries[1..], key, value);
    }
  }

  /** With distinct ids the menu lists every licence once, in table order, as (id, name). */
  lemma {:induction false} ChoicesOfDistinct(ls: seq<License>)
    requires DistinctIds(ls)
    ensures |ChoicesOf(ls)| == |ls|
    ensures forall i :: 0 <= i < |ls| ==> ChoicesOf(ls)[i] == (ls[i].id, ls[i].name)
    decreases |ls|
  {
    if ls != [] {
      var init := ls[..|ls| - 1];
      assert DistinctIds(init);
      ChoicesOfDistinct(init);
      PutNew(ChoicesOf(init), ls[|ls| - 1].id, ls[|ls| - 1].name);
    }
  }

  /** The loop of lines 234-237. */
  method LicenseChoices(ls: seq<License>) returns (licenses: Options)
    ensures licenses == Dict(ChoicesOf(ls))
  {
    var entries: seq<(string, string)> := [];
    var i := 0;
    while i < |ls|
      invariant 0 <= i <= |ls|
      invariant entries == ChoicesOf(ls[..i])
    {
      assert ls[..i + 1][..i] == ls[..i];
      entries := Put(entries, ls[i].id, ls[i].name);
      i := i + 1;
    }
    assert ls[..|ls|] == ls;
    return Dict(entries);
  }

  // ----- New vertex titles -----

  /** The title `'#' + n`. */
  function NewTitle(n: nat): string {
    "#" + DecimalString(n)
  }

  /** Some vertex is titled `#n`. */
  predicate Taken(vs: seq<Vertex>, n: nat) {
    exists i :: 0 <= i < |vs| && vs[i].title == Str(NewTitle(n))
  }

  /** The first free title number from `n` on, up to 100. */
  function FreeFrom(vs: seq<Vertex>, n: nat): Option<nat>
    decreases 101 - n
  {
    if n > 100 then None else if !Taken(vs, n) then Some(n) else FreeFrom(vs, n + 1)
  }

  function FirstFree(vs: seq<Vertex>): Option<nat> {
    FreeFrom(vs, 1)
  }

  lemma {:induction false} FreeFromNone(vs: seq<Vertex>, n: nat)
    requires 1 <= n
    ensures FreeFrom(vs, n).None? <==> forall m :: n <= m <= 100 ==> Taken(vs, m)
    decreases 101 - n
  {
    if n <= 100 && Taken(vs, n) {
      FreeFromNone(vs, n + 1);
    }
  }

  lemma {:induction false} FreeFromSome(vs: seq<Vertex>, n: nat)
    requires 1 <= n && FreeFrom(vs, n).Some?
    ensures var k := FreeFrom(vs, n).value;
      n <= k <= 100 && !Taken(vs, k) && forall m :: n <= m < k ==> Taken(vs, m)
    decreases 101 - n
  {
    if Taken(vs, n) {
      FreeFromSome(vs, n + 1);
    }
  }

  /** The title chosen is `#k` for the least k in 1..100 that no vertex carries. */
  lemma FirstFreeIsLeast(vs: seq<Vertex>)
    ensures FirstFree(vs).None? <==> forall m :: 1 <= m <= 100 ==> Taken(vs, m)
    ensures FirstFree(vs).Some? ==>
      var k := FirstFree(vs).value;
      1 <= k <= 100 && !Taken(vs, k) && forall m :: 1 <= m < k ==> Taken(vs, m)
  {
    FreeFromNone(vs, 1);
    if FirstFree(vs).Some? {
      FreeFromSome(vs, 1);
    }
  }

  /** The properties `createVertexAndEditPanel` passes to the constructor (lines 217-220). */
  function NewVertexProps(n: nat, mouse: Coords): Props {
    map["title" := Str(NewTitle(n)), "type" := Str(VertexTypes[0]), "position" := CoordsValue(mouse)]
  }

  /** The vertex appended for the title number `n` at the mouse position. */
  function NewVertexAt(n: nat, mouse: Coords): (v: Vertex)
    ensures v.title == Str(NewTitle(n)) && v.kind == Str("Organization") && v.position == mouse
    ensures v.members == [] && v.mass == 1 && Normalised(v)
  {
    var props := NewVertexProps(n, mouse);
    assert Get(props, "position") == CoordsValue(mouse);
    NewVertex(props, mouse).value
  }

  /** The search loop of lines 210-215: `None` where the source returns at `n > 99`. */
  method FreeTitle(vs: seq<Vertex>) returns (r: Option<nat>)
    ensures r == FirstFree(vs)
  {
    FirstFreeIsLeast(vs);
    var n := 1;
    var id := GetVertexIdByTitle(vs, Str(NewTitle(n)));
    while id != -1
      invariant 1 <= n <= 100
      invariant forall m :: 1 <= m < n ==> Taken(vs, m)
      invariant id != -1 <==> Taken(vs, n)
      decreases 100 - n
    {
      if n > 99 {
        return None;
      }
      n := n + 1;
      id := GetVertexIdByTitle(vs, Str(NewTitle(n)));
    }
    return Some(n);
  }

  // ----- The animation pass -----

  /**
   * The first `k` iterations of the loop of `animate`: entry `i` is replaced by its step,
   * computed against the array as it is then, whose earlier entries are already updated.
   */
  function Sweep(vs: seq<Vertex>, force: Force, k: nat): (r: seq<Vertex>)
    requires k <= |vs|
    ensures |r| == |vs|
    decreases k
  {
    if k == 0 then vs
    else
      var w := Sweep(vs, force, k - 1);
      w[k - 1 := Step(Renew(w[k - 1]), w, force)]
  }

  /** Entries from `k` on are untouched by the first `k` iterations. */
  lemma {:induction false} SweepLeavesLater(vs: seq<Vertex>, force: Force, k: nat, j: nat)
    requires k <= j < |vs|
    ensures Sweep(vs, force, k)[j] == vs[j]
    decreases k
  {
    if k > 0 {
      SweepLeavesLater(vs, force, k - 1, j);
    }
  }

  /** After iteration `j`, entry `j` is never written again. */
  lemma {:induction false} SweepKeepsEarlier(vs: seq<Vertex>, force: Force, k: nat, j: nat)
    requires j < k <= |vs|
    ensures Sweep(vs, force, k)[j] == Sweep(vs, force, j + 1)[j]
    decreases k
  {
    if k > j + 1 {
      SweepKeepsEarlier(vs, force, k - 1, j);
    }
  }

  /**
   * The update is sequential (Gauss-Seidel): the new entry `k` is the step of the old one
   * against the already updated entries before it and the old entries from `k` on.
   */
  lemma SweepSequential(vs: seq<Vertex>, force: Force, k: nat)
    requires k < |vs|
    ensures var r := Sweep(vs, force, |vs|);
      r[k] == Step(Renew(vs[k]), r[..k] + vs[k..], force)
  {
    var r := Sweep(vs, force, |vs|);
    var w := Sweep(vs, force, k);
    SweepKeepsEarlier(vs, force, |vs|, k);
    SweepLeavesLater(vs, force, k, k);
    forall j | 0 <= j < |vs|
      ensures w[j] == (r[..k] + vs[k..])[j]
    {
      if j < k {
        SweepKeepsEarlier(vs, force, |vs|, j);
        SweepKeepsEarlier(vs, force, k, j);
      } else {
        SweepLeavesLater(vs, force, k, j);
      }
    }
    assert w == r[..k] + vs[k..];
  }

  /** Every vertex keeps everything but its position; the mass stays the one its members give. */
  lemma {:induction false} SweepMovesOnlyPositions(vs: seq<Vertex>, force: Force, k: nat)
    requires k <= |vs| && AllNormalised(vs)
    ensures AllNormalised(Sweep(vs, force, k))
    ensures forall j :: 0 <= j < |vs| ==> Sweep(vs, force, k)[j] == vs[j].(position := Sweep(vs, force, k)[j].position)
    decreases k
  {
    if k > 0 {
      SweepMovesOnlyPositions(vs, force, k - 1);
      var w := Sweep(vs, force, k - 1);
      RenewNormalised(w[k - 1]);
      StepMovesOnlyPosition(Renew(w[k - 1]), w, force);
    }
  }

  // ----- The editor state -----

  /** The globals `graph` and `selectedVertices`. */
  class Editor {
    var graph: Graph
    var selected: seq<int>

    /** Every stored vertex has the mass its members give. */
    ghost predicate Valid()
      reads this
    {
      AllNormalised(graph.vertices)
    }

    /** The start-up `graph` and an empty selection; `created` is the start-up time. */
    constructor(created: string)
      ensures Valid()
      ensures graph == Graph(DefaultMetadata(created), []) && selected == []
    {
      graph := Graph(DefaultMetadata(created), []);
      selected := [];
    }

    /**
     * `createVertexAndEditPanel`: append a vertex titled with the first free `#n` at the
     * mouse position and select it; do nothing when `#1` to `#100` are all taken.
     */
    method CreateVertexAndEditPanel(mouse: Coords)
      requires Valid()
      modifies this
      ensures Valid()
      ensures graph.metadata == old(graph.metadata)
      ensures FirstFree(old(graph.vertices)).None? ==> graph == old(graph) && selected == old(selected)
      ensures FirstFree(old(graph.vertices)).Some? ==>
        graph.vertices == old(graph.vertices) + [NewVertexAt(FirstFree(old(graph.vertices)).value, mouse)] &&
        selected == [|old(graph.vertices)|]
    {
      var n := FreeTitle(graph.vertices);
      if n.None? {
        return;
      }
      graph := graph.(vertices := graph.vertices + [NewVertexAt(n.value, mouse)]);
      selected := [|graph.vertices| - 1];
    }

    /** `selectVertex`: select the first vertex under the mouse, or nothing. */
    method SelectVertex(mouse: Coords)
      modifies this`selected
      ensures selected == [] <==> forall i :: 0 <= i < |graph.vertices| ==> !Hit(graph.vertices[i], mouse)
      ensures selected != [] ==>
        |selected| == 1 && 0 <= selected[0] < |graph.vertices| && Hit(graph.vertices[selected[0]], mouse) &&
        forall j :: 0 <= j < selected[0] ==> !Hit(graph.vertices[j], mouse)
    {
      var lastSelected := GetVertexIdByCoords(graph.vertices, mouse);
      if lastSelected < 0 {
        selected := [];
      } else {
        selected := [lastSelected];
      }
    }

    /**
     * `editVertex`: write the three edited fields into the first selected vertex. `ok` is
     * false when there is no such vertex, where the source throws a TypeError.
     */
    method EditVertex(kind: string, title: string, description: string) returns (ok: bool)
      requires Valid()
      modifies this
      ensures Valid() && selected == old(selected) && graph.metadata == old(graph.metadata)
      ensures ok <==> |old(selected)| > 0 && 0 <= old(selected)[0] < |old(graph.vertices)|
      ensures !ok ==> graph == old(graph)
      ensures ok ==>
        var k := old(selected)[0];
        graph.vertices ==
          old(graph.vertices)[k := old(graph.vertices)[k].(kind := Str(kind), title := Str(title), description := Str(description))]
    {
      if |selected| == 0 || !(0 <= selected[0] < |graph.vertices|) {
        return false;
      }
      var v := selected[0];
      var w := graph.vertices[v];
      w := w.(kind := Str(kind));
      w := w.(title := Str(title));
      w := w.(description := Str(description));
      graph := graph.(vertices := graph.vertices[v := w]);
      return true;
    }

    /** The update loop of `animate`: each vertex in turn takes one step. */
    method Animate(force: Force)
      requires Valid()
      modifies this
      ensures Valid() && selected == old(selected) && graph.metadata == old(graph.metadata)
      ensures graph.vertices == Sweep(old(graph.vertices), force, |old(graph.vertices)|)
    {
      ghost var start := graph.vertices;
      var i := 0;
      while i < |graph.vertices|
        invariant 0 <= i <= |graph.vertices| == |start|
        invariant graph.vertices == Sweep(start, force, i)
        invariant selected == old(selected) && graph.metadata == old(graph.metadata)
      {
        var s := Speed(Renew(graph.vertices[i]), graph.vertices, force);
        var me := Renew(graph.vertices[i]);
        graph := graph.(vertices := graph.vertices[i := me.(position := Plus(me.position, Times(s, TimeStep)))]);
        i := i + 1;
      }
      SweepMovesOnlyPositions(start, force, |start|);
    }

    /**
     * The callback of `importFromUrl` on the parsed document: the graph becomes the converted
     * one, and stays as it was when the document is rejected or the conversion throws.
     */
    method ImportFromUrl(buffer: Value, fallback: nat -> Coords) returns (c: Conversion)
      requires Valid()
      modifies this`graph
      ensures Valid()
      ensures c == Convert(buffer, fallback)
      ensures graph == if c.Accepted? then c.graph else old(graph)
    {
      c := ConvertJsonStringToGraph(buffer, fallback);
      if c.Accepted? {
        ConvertAcceptedGraph(buffer, fallback, c.graph);
        graph := c.graph;
      }
    }
  }
}
