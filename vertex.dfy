/**
 * Graph vertices (js/Vertex.js): the constructor's normalisation of the properties it is
 * given, the lookups by title and by position, and the Euler step of the animation.
 *
 * A vertex is a value. The source's `vertex(v)`, applied to a vertex already stored in the
 * graph, builds a new object with the same properties and the mass computed again; that is
 * `Renew` here.
 */
module Vertices {
  import opened Wrappers
  import opened JsValue
  import opened Vector
  import opened Bootstrap

  /** The three kinds of vertex, in the order the type menu lists them. */
  const VertexTypes: seq<string> := ["Organization", "People", "Project"]

  /**
   * A constructed vertex. Text-like properties keep the value they were given, whatever its
   * type; `kind` is the property `type`. The random colour is not part of the model.
   */
  datatype Vertex = Vertex(
    title: Value,
    kind: Value,
    image: Value,
    description: Value,
    details: Value,
    mass: nat,
    position: Coords,
    links: Value,
    members: seq<Value>)

  /** The properties object handed to the constructor. */
  type Props = map<string, Value>

  /** A vertex whose mass is the one the constructor computes from its members. */
  predicate Normalised(v: Vertex) {
    v.mass == MinimalMass + |v.members|
  }

  predicate AllNormalised(vs: seq<Vertex>) {
    forall i :: 0 <= i < |vs| ==> Normalised(vs[i])
  }

  /** The global `graph`: its metadata object and its vertices. */
  datatype Graph = Graph(metadata: Value, vertices: seq<Vertex>)

  // ----- Positions as property values -----

  /** An object whose `x` and `y` are numbers. */
  predicate NumericCoords(p: Value) {
    p.Obj? && Get(p.fields, "x").Num? && Get(p.fields, "y").Num?
  }

  function CoordsOf(p: Value): Coords
    requires NumericCoords(p)
  {
    Coords(Get(p.fields, "x").n, Get(p.fields, "y").n)
  }

  /** A `Coords` object seen as a property value. */
  function CoordsValue(c: Coords): (p: Value)
    ensures NumericCoords(p) && CoordsOf(p) == c
  {
    Obj(map["x" := Num(c.x), "y" := Num(c.y)])
  }

  /**
   * The positions the model can represent: a missing or false one (replaced by a random
   * point) or one with numeric coordinates.
   */
  predicate PositionUsable(p: Value) {
    !Truthy(p) || NumericCoords(p)
  }

  // ----- The constructor -----

  /** `members` after line 36: the given array, or an empty one when it is missing or not an array. */
  function MembersOf(props: Props): seq<Value> {
    var m := Get(props, "members");
    if Truthy(m) && m.Arr? then m.items else []
  }

  /**
   * `new Vertex(props)`, where `fallback` stands for the random point drawn when the
   * position is missing or false. `None` when the position is true but has no numeric
   * coordinates, which the model does not represent.
   */
  function NewVertex(props: Props, fallback: Coords): (r: Option<Vertex>)
    ensures r.Some? <==> PositionUsable(Get(props, "position"))
    ensures r.Some? ==> Normalised(r.value) && r.value.mass >= MinimalMass
  {
    var p := Get(props, "position");
    if Truthy(p) && !NumericCoords(p) then None
    else
      var members := MembersOf(props);
      Some(Vertex(
        Get(props, "title"),
        Get(props, "type"),
        Get(props, "image"),
        Get(props, "description"),
        Get(props, "details"),
        MinimalMass + |members|,
        if Truthy(p) then CoordsOf(p) else fallback,
        Get(props, "links"),
        members))
  }

  /** The text-like properties are copied verbatim. */
  lemma NewVertexCopiesProperties(props: Props, fallback: Coords)
    requires PositionUsable(Get(props, "position"))
    ensures var v := NewVertex(props, fallback).value;
      v.title == Get(props, "title") && v.kind == Get(props, "type") &&
      v.image == Get(props, "image") && v.description == Get(props, "description") &&
      v.details == Get(props, "details") && v.links == Get(props, "links")
  {}

  /** Members are the given array when there is one, and empty otherwise; the mass counts them. */
  lemma NewVertexMembers(props: Props, fallback: Coords)
    requires PositionUsable(Get(props, "position"))
    ensures var v := NewVertex(props, fallback).value;
      (Get(props, "members").Arr? ==> v.members == Get(props, "members").items) &&
      (!Get(props, "members").Arr? ==> v.members == []) &&
      v.mass == 1 + |v.members|
  {}

  /** A supplied position is kept; the random point is used only when none is supplied. */
  lemma NewVertexPosition(props: Props, fallback: Coords)
    requires PositionUsable(Get(props, "position"))
    ensures var p := Get(props, "position");
      NewVertex(props, fallback).value.position == if Truthy(p) then CoordsOf(p) else fallback
  {}

  /** The properties of a vertex, as the constructor reads them back. */
  function ToProps(v: Vertex): Props {
    map[
      "title" := v.title,
      "type" := v.kind,
      "image" := v.image,
      "description" := v.description,
      "details" := v.details,
      "mass" := Num(v.mass as real),
      "position" := CoordsValue(v.position),
      "links" := v.links,
      "members" := Arr(v.members)]
  }

  /** `vertex(v)` on a stored vertex: the same properties with the mass recomputed. */
  function Renew(v: Vertex): (r: Vertex)
    ensures Normalised(r)
  {
    v.(mass := MinimalMass + |v.members|)
  }

  /** Building a vertex from a vertex's own properties gives it back, with its mass recomputed. */
  lemma NewVertexOfProps(v: Vertex, fallback: Coords)
    ensures NewVertex(ToProps(v), fallback) == Some(Renew(v))
  {
    assert Get(ToProps(v), "position") == CoordsValue(v.position);
    assert MembersOf(ToProps(v)) == v.members;
  }

  /** Re-wrapping a normalised vertex changes nothing. */
  lemma RenewNormalised(v: Vertex)
    ensures Normalised(v) <==> Renew(v) == v
  {}

  // ----- Lookups -----

  /** `getVertexIdByTitle`: the lowest index whose title equals `title`, or -1. */
  method GetVertexIdByTitle(vs: seq<Vertex>, title: Value) returns (id: int)
    ensures -1 <= id < |vs|
    ensures id == -1 <==> forall i :: 0 <= i < |vs| ==> vs[i].title != title
    ensures id >= 0 ==> vs[id].title == title && forall j :: 0 <= j < id ==> vs[j].title != title
  {
    var v := 0;
    while v < |vs|
      invariant 0 <= v <= |vs|
      invariant forall j :: 0 <= j < v ==> vs[j].title != title
    {
      if vs[v].title == title {
        return v;
      }
      v := v + 1;
    }
    return -1;
  }

  /** The square of `radius`, which is `sqrt(mass) * objectsDensity`, for the renewed vertex. */
  function RadiusSq(v: Vertex): real {
    (Renew(v).mass * ObjectsDensity * ObjectsDensity) as real
  }

  /** The point `c` lies strictly inside the vertex's circle (squares on both sides). */
  predicate Hit(v: Vertex, c: Coords) {
    DistanceSq(c, v.position) < RadiusSq(v)
  }

  lemma RadiusSqOfMembers(v: Vertex)
    ensures RadiusSq(v) == (400 * (1 + |v.members|)) as real
  {}

  /** `getVertexIdByCoords`: the lowest index whose circle contains `c`, or -1. */
  method GetVertexIdByCoords(vs: seq<Vertex>, c: Coords) returns (id: int)
    ensures -1 <= id < |vs|
    ensures id == -1 <==> forall i :: 0 <= i < |vs| ==> !Hit(vs[i], c)
    ensures id >= 0 ==> Hit(vs[id], c) && forall j :: 0 <= j < id ==> !Hit(vs[j], c)
  {
    var v := 0;
    while v < |vs|
      invariant 0 <= v <= |vs|
      invariant forall j :: 0 <= j < v ==> !Hit(vs[j], c)
    {
      var w := Renew(vs[v]);
      if DistanceSq(c, w.position) < RadiusSq(w) {
        return v;
      }
      v := v + 1;
    }
    return -1;
  }

  /** On the boundary of the circle the test misses. */
  lemma HitIsStrict(v: Vertex, c: Coords)
    requires DistanceSq(c, v.position) == RadiusSq(v)
    ensures !Hit(v, c)
  {}

  // ----- Speed and step -----

  /**
   * The attraction a vertex `n` exerts on `me`, which the source computes from the distance,
   * the two radii and `objectsMargin`; it is a parameter of the model.
   */
  type Force = (Vertex, Vertex) -> Coords

  /** The sum of the pairwise terms over `others`, skipping every vertex titled like `me`. */
  function PairSum(me: Vertex, others: seq<Vertex>, force: Force): Coords
    decreases |others|
  {
    if others == [] then Zero
    else
      var init := others[..|others| - 1];
      var n := Renew(others[|others| - 1]);
      if n.title != me.title then Plus(PairSum(me, init, force), force(n, me))
      else PairSum(me, init, force)
  }

  /** The pull towards the centre, proportional to the position and the mass. */
  function CentreTerm(me: Vertex): Coords {
    Times(me.position, -0.002 * me.mass as real)
  }

  /** `me.speed()` when the graph holds `others`. */
  function SpeedOf(me: Vertex, others: seq<Vertex>, force: Force): Coords {
    Plus(PairSum(me, others, force), CentreTerm(me))
  }

  /** The loop of `speed`, which accumulates `s` over the graph's vertices. */
  method Speed(me: Vertex, others: seq<Vertex>, force: Force) returns (s: Coords)
    ensures s == SpeedOf(me, others, force)
  {
    s := Zero;
    var v := 0;
    while v < |others|
      invariant 0 <= v <= |others|
      invariant s == PairSum(me, others[..v], force)
    {
      var n := Renew(others[v]);
      assert others[..v + 1][..v] == others[..v];
      if n.title != me.title {
        s := Plus(s, force(n, me));
      }
      v := v + 1;
    }
    assert others[..|others|] == others;
    s := Plus(s, CentreTerm(me));
  }

  /** Appending a vertex titled like `me` leaves the sum as it was. */
  lemma PairSumSkipsOwnTitle(me: Vertex, others: seq<Vertex>, n: Vertex, force: Force)
    requires n.title == me.title
    ensures PairSum(me, others + [n], force) == PairSum(me, others, force)
  {
    assert (others + [n])[..|others|] == others;
  }

  /** A vertex titled otherwise adds its term. */
  lemma PairSumAddsOther(me: Vertex, others: seq<Vertex>, n: Vertex, force: Force)
    requires n.title != me.title
    ensures PairSum(me, others + [n], force) == Plus(PairSum(me, others, force), force(Renew(n), me))
  {
    assert (others + [n])[..|others|] == others;
  }

  /** When every vertex carries `me`'s title, only the centre term is left. */
  lemma {:induction false} PairSumAllSameTitle(me: Vertex, others: seq<Vertex>, force: Force)
    requires forall i :: 0 <= i < |others| ==> others[i].title == me.title
    ensures PairSum(me, others, force) == Zero
    decreases |others|
  {
    if others != [] {
      PairSumAllSameTitle(me, others[..|others| - 1], force);
    }
  }

  lemma SpeedAllSameTitle(me: Vertex, others: seq<Vertex>, force: Force)
    requires forall i :: 0 <= i < |others| ==> others[i].title == me.title
    ensures SpeedOf(me, others, force) == Times(me.position, -0.002 * me.mass as real)
  {
    PairSumAllSameTitle(me, others, force);
    PlusZero(CentreTerm(me));
  }

  /** `me.step()`: one Euler step of length `timeStep` along the speed. */
  function Step(me: Vertex, others: seq<Vertex>, force: Force): (r: Vertex)
    ensures r.(position := me.position) == me
    ensures Normalised(me) ==> Normalised(r)
  {
    me.(position := Plus(me.position, Times(SpeedOf(me, others, force), TimeStep)))
  }

  /** With `timeStep = 1` the step adds the speed to the position and changes nothing else. */
  lemma StepMovesOnlyPosition(me: Vertex, others: seq<Vertex>, force: Force)
    ensures Step(me, others, force) == me.(position := Plus(me.position, SpeedOf(me, others, force)))
    ensures Normalised(me) ==> Normalised(Step(me, others, force))
  {
    TimesOne(SpeedOf(me, others, force));
  }
}
