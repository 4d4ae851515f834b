/**
 * The older single-file variant (SocialGraph.js), where it differs from the split-out files:
 * the nearest-vertex search, a default graph without an alias, and an import that stores the
 * parsed document as it is instead of converting its vertices.
 */
module Monolith {
  import opened Wrappers
  import opened JsValue
  import opened Vector
  import opened Bootstrap
  import opened Vertices
  import opened ImportExport

  /** The start-up metadata of the single-file variant; `created` is the start-up time. */
  function LegacyDefaultMetadata(created: string): (m: Value)
    ensures m.Obj? && Get(m.fields, "created") == Str(created)
    ensures "alias" !in m.fields
  {
    Obj(map[
      "title" := Str("An untitled social graph"),
      "authors" := Arr([Str("Anonymous")]),
      "created" := Str(created),
      "visibility" := Str("private"),
      "license" := Str("COPYRIGHT")])
  }

  /** It is the later default without its `alias` entry. */
  lemma LegacyDefaultLacksAlias(created: string)
    ensures "alias" !in LegacyDefaultMetadata(created).fields
    ensures DefaultMetadata(created).fields == LegacyDefaultMetadata(created).fields["alias" := Str("untitled")]
  {}

  // ----- getClosestTo -----

  /** Index `k` is at least as close to `c` as every vertex, and strictly closer than every earlier one. */
  predicate IsClosest(vs: seq<Vertex>, c: Coords, k: nat) {
    k < |vs| &&
    (forall j :: 0 <= j < |vs| ==> DistanceSq(c, vs[k].position) <= DistanceSq(c, vs[j].position)) &&
    (forall j :: 0 <= j < k ==> DistanceSq(c, vs[k].position) < DistanceSq(c, vs[j].position))
  }

  /** At most one index is the closest in this sense: ties go to the lowest index. */
  lemma ClosestIsUnique(vs: seq<Vertex>, c: Coords, k: nat, l: nat)
    requires IsClosest(vs, c, k) && IsClosest(vs, c, l)
    ensures k == l
  {
    var dk, dl := DistanceSq(c, vs[k].position), DistanceSq(c, vs[l].position);
    assert dk <= dl && dl <= dk;
    assert k < l ==> dl < dk;
    assert l < k ==> dk < dl;
  }

  /**
   * `getClosestTo(c)`: the loop keeps the smallest distance seen so far, starting from
   * infinity (`None` here), and moves only on a strictly smaller one. An empty graph gives no
   * index (`undefined`).
   */
  method GetClosestTo(vs: seq<Vertex>, c: Coords) returns (closest: Option<nat>)
    ensures closest.None? <==> vs == []
    ensures closest.Some? ==> IsClosest(vs, c, closest.value)
  {
    closest := None;
    var dist: real := 0.0;
    var v := 0;
    while v < |vs|
      invariant 0 <= v <= |vs|
      invariant closest.None? <==> v == 0
      invariant closest.Some? ==> closest.value < v && dist == DistanceSq(c, vs[closest.value].position)
      invariant closest.Some? ==> forall j :: 0 <= j < v ==> dist <= DistanceSq(c, vs[j].position)
      invariant closest.Some? ==> forall j :: 0 <= j < closest.value ==> dist < DistanceSq(c, vs[j].position)
    {
      var nvertex := Renew(vs[v]);
      var ndist := DistanceSq(c, nvertex.position);
      if closest.None? || ndist < dist {
        dist := ndist;
        closest := Some(v);
      }
      v := v + 1;
    }
  }

  // ----- importFromUrl -----

  /**
   * The callback of `importFromUrl` (lines 1077-1085): a document shaped like a graph becomes
   * the graph object itself (`new Object(buffer)` is `buffer`); otherwise the graph stays and
   * `error` reports the message.
   */
  method ImportFromUrl(graph: Value, buffer: Value) returns (next: Value, error: bool)
    ensures error <==> !IsGraphShaped(buffer)
    ensures error ==> next == graph
    ensures !error ==> next == buffer && IsObject(Property(next, "metadata")) && Property(next, "vertices").Arr?
  {
    if Truthy(buffer) && Truthy(Property(buffer, "metadata")) && IsObject(Property(buffer, "metadata")) &&
       Truthy(Property(buffer, "vertices")) && Property(buffer, "vertices").Arr? {
      return buffer, false;
    }
    return graph, true;
  }

  /**
   * Both variants refuse the same documents. Where the later one accepts, its graph has the
   * document's metadata and one vertex per entry, as the stored document has.
   */
  lemma ImportAgreesWithConvert(buffer: Value, fallback: nat -> Coords)
    ensures IsGraphShaped(buffer) <==> Convert(buffer, fallback) != Rejected
    ensures Convert(buffer, fallback).Accepted? ==>
      var g := Convert(buffer, fallback).graph;
      g.metadata == Property(buffer, "metadata") && |g.vertices| == |Property(buffer, "vertices").items|
  {
    if Convert(buffer, fallback).Accepted? {
      ConvertAcceptedGraph(buffer, fallback, Convert(buffer, fallback).graph);
    }
  }

  /** A document whose vertex entry is `null` is stored by this variant but throws in the later one. */
  lemma NullEntryStoredButNotConverted(fallback: nat -> Coords)
    ensures var buffer := Obj(map["metadata" := Obj(map[]), "vertices" := Arr([Null])]);
      IsGraphShaped(buffer) && Convert(buffer, fallback) == Failed(TypeError)
  {
    var buffer := Obj(map["metadata" := Obj(map[]), "vertices" := Arr([Null])]);
    var items := [Null];
    assert items[..0] == [];
    assert ConvertEntries(items, fallback) == Entries.Stop(TypeError);
  }
}
