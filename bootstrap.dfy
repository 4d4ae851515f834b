/**
 * Application start-up (js/bootstrap.js): the tuning constants, the graph the editor starts
 * with, and the routing of the page address "PATH ? ID # KEY".
 */
module Bootstrap {
  import opened Wrappers
  import opened Chars
  import opened JsValue

  /** Lower bound of a vertex mass. */
  const MinimalMass: nat := 1
  /** Ratio between a vertex radius and the square root of its mass. */
  const ObjectsDensity: nat := 20
  /** Minimal space between two vertices, in pixels. */
  const ObjectsMargin: nat := 9 * ObjectsDensity
  /** Animation time step, in milliseconds. */
  const TimeStep: real := 1.0

  lemma ConstantValues()
    ensures MinimalMass == 1 && ObjectsDensity == 20 && ObjectsMargin == 180 && TimeStep == 1.0
  {}

  /**
   * The metadata of the graph shown before anything is imported; `created` is the start-up
   * time as `toGMTString()` renders it.
   */
  function DefaultMetadata(created: string): (m: Value)
    ensures m.Obj? && Get(m.fields, "created") == Str(created)
  {
    Obj(map[
      "title" := Str("An untitled social graph"),
      "authors" := Arr([Str("Anonymous")]),
      "created" := Str(created),
      "visibility" := Str("private"),
      "license" := Str("COPYRIGHT"),
      "alias" := Str("untitled")])
  }

  lemma DefaultMetadataFields(created: string)
    ensures Property(DefaultMetadata(created), "title") == Str("An untitled social graph")
    ensures Property(DefaultMetadata(created), "authors") == Arr([Str("Anonymous")])
    ensures Property(DefaultMetadata(created), "visibility") == Str("private")
    ensures Property(DefaultMetadata(created), "license") == Str("COPYRIGHT")
    ensures Property(DefaultMetadata(created), "alias") == Str("untitled")
  {}

  // ----- String.prototype.split with a one-character separator -----

  /** `s.split(sep)`: the maximal separator-free pieces between separators, always at least one. */
  function Split(s: string, sep: char): (pieces: seq<string>)
    ensures |pieces| >= 1
    decreases |s|
  {
    if s == [] then [""]
    else
      var rest := Split(s[1..], sep);
      if s[0] == sep then [""] + rest else [[s[0]] + rest[0]] + rest[1..]
  }

  /** `pieces.join(sep)`. */
  function Join(pieces: seq<string>, sep: char): string
    decreases |pieces|
  {
    if pieces == [] then ""
    else if |pieces| == 1 then pieces[0]
    else pieces[0] + [sep] + Join(pieces[1..], sep)
  }

  /** Splitting loses nothing: joining the pieces gives the text back. */
  lemma {:induction false} SplitJoin(s: string, sep: char)
    ensures Join(Split(s, sep), sep) == s
    decreases |s|
  {
    if s != [] {
      var rest := Split(s[1..], sep);
      SplitJoin(s[1..], sep);
      if s[0] == sep {
        assert Split(s, sep) == [""] + rest;
        assert ([""] + rest)[1..] == rest;
      } else {
        var p := Split(s, sep);
        assert p == [[s[0]] + rest[0]] + rest[1..];
        if |rest| == 1 {
          assert p == [[s[0]] + rest[0]];
        } else {
          assert p[1..] == rest[1..];
          assert Join(rest, sep) == rest[0] + [sep] + Join(rest[1..], sep);
        }
      }
      assert s == [s[0]] + s[1..];
    }
  }

  /** No piece contains the separator. */
  lemma {:induction false} SplitPiecesFree(s: string, sep: char)
    ensures forall i :: 0 <= i < |Split(s, sep)| ==> sep !in Split(s, sep)[i]
    decreases |s|
  {
    if s != [] {
      SplitPiecesFree(s[1..], sep);
    }
  }

  /** There is one piece more than there are separators. */
  lemma {:induction false} SplitLength(s: string, sep: char)
    ensures |Split(s, sep)| == Count(s, sep) + 1
    decreases |s|
  {
    if s != [] {
      SplitLength(s[1..], sep);
    }
  }

  /** A separator-free text is a single piece. */
  lemma {:induction false} SplitWithoutSeparator(a: string, sep: char)
    requires sep !in a
    ensures Split(a, sep) == [a]
    decreases |a|
  {
    if a != [] {
      SplitWithoutSeparator(a[1..], sep);
      assert a == [a[0]] + a[1..];
    }
  }

  /** Text before the first separator becomes the first piece; the rest is split on its own. */
  lemma {:induction false} SplitAtFirst(a: string, sep: char, b: string)
    requires sep !in a
    ensures Split(a + [sep] + b, sep) == [a] + Split(b, sep)
    decreases |a|
  {
    if a == [] {
      assert a + [sep] + b == [sep] + b;
      assert ([sep] + b)[1..] == b;
    } else {
      var s := a + [sep] + b;
      assert s[1..] == a[1..] + [sep] + b;
      SplitAtFirst(a[1..], sep, b);
      assert a == [a[0]] + a[1..];
    }
  }

  // ----- Routing of the page address -----

  /** The outcome of start-up routing: the cipher key and the address of a graph to import. */
  datatype Route = Route(graphKey: Option<string>, importUrl: Option<string>)

  /** The text before the first '#'. */
  function BeforeHash(href: string): string {
    Split(href, '#')[0]
  }

  /** `graphKey`: the second '#'-piece of the address, or undefined when it has no '#'. */
  function GraphKey(href: string): Option<string> {
    var pieces := Split(href, '#');
    if |pieces| >= 2 then Some(pieces[1]) else None
  }

  /** A graph id is longer than two characters, all of them word characters. */
  predicate IsGraphId(id: string) {
    |id| > 2 && AllWord(id)
  }

  /** The address of the graph to import, when the text before '#' holds exactly one '?'. */
  function ImportUrl(href: string, siteUrl: string): Option<string> {
    var pieces := Split(BeforeHash(href), '?');
    if |pieces| == 2 && IsGraphId(pieces[1]) then Some(siteUrl + "get?" + pieces[1]) else None
  }

  /** What `window.onload` derives from the address `href`; `siteUrl` is `SocialGraphUrl`. */
  function Startup(href: string, siteUrl: string): (r: Route)
    ensures r.graphKey.Some? ==> '#' !in r.graphKey.value
    ensures r.importUrl.Some? ==>
      var u := r.importUrl.value;
      |u| > |siteUrl| + 6 && u[..|siteUrl| + 4] == siteUrl + "get?" && IsGraphId(u[|siteUrl| + 4..]) &&
      '#' !in u[|siteUrl| + 4..] && '?' !in u[|siteUrl| + 4..]
  {
    SplitPiecesFree(href, '#');
    SplitPiecesFree(BeforeHash(href), '?');
    Route(GraphKey(href), ImportUrl(href, siteUrl))
  }

  /** The key is exactly the text between the first and the second '#'. */
  lemma GraphKeyBetweenHashes(a: string, key: string, rest: string)
    requires '#' !in a && '#' !in key
    requires rest == [] || rest[0] == '#'
    ensures GraphKey(a + "#" + key + rest) == Some(key)
  {
    assert a + "#" + key + rest == a + ['#'] + (key + rest);
    SplitAtFirst(a, '#', key + rest);
    if rest == [] {
      assert key + rest == key;
      SplitWithoutSeparator(key, '#');
    } else {
      assert key + rest == key + ['#'] + rest[1..];
      SplitAtFirst(key, '#', rest[1..]);
    }
  }

  lemma GraphKeyWithoutHash(href: string)
    requires '#' !in href
    ensures GraphKey(href) == None && BeforeHash(href) == href
  {
    SplitWithoutSeparator(href, '#');
  }

  /** Only the text before the first '#' is searched for an id: the key part is never read. */
  lemma RouteIgnoresKeyPart(a: string, rest: string, siteUrl: string)
    requires '#' !in a
    ensures BeforeHash(a + "#" + rest) == a
    ensures ImportUrl(a + "#" + rest, siteUrl) == ImportUrl(a, siteUrl)
  {
    assert a + "#" + rest == a + ['#'] + rest;
    SplitAtFirst(a, '#', rest);
    SplitWithoutSeparator(a, '#');
  }

  /** No import is requested unless the text before '#' holds exactly one '?'. */
  lemma ImportNeedsOneQuestionMark(href: string, siteUrl: string)
    requires Count(BeforeHash(href), '?') != 1
    ensures ImportUrl(href, siteUrl) == None
  {
    SplitLength(BeforeHash(href), '?');
  }

  /** For "PATH?ID" before the key, the import address is `siteUrl + 'get?' + ID` iff ID is valid. */
  lemma ImportUrlOfQuery(path: string, id: string, rest: string, siteUrl: string)
    requires '#' !in path && '#' !in id && '?' !in path && '?' !in id
    requires rest == [] || rest[0] == '#'
    ensures ImportUrl(path + "?" + id + rest, siteUrl) ==
              if IsGraphId(id) then Some(siteUrl + "get?" + id) else None
  {
    var href := path + "?" + id + rest;
    var before := path + "?" + id;
    assert '#' !in before;
    if rest == [] {
      assert href == before;
      SplitWithoutSeparator(before, '#');
    } else {
      assert href == before + ['#'] + rest[1..];
      SplitAtFirst(before, '#', rest[1..]);
    }
    assert BeforeHash(href) == before;
    assert before == path + ['?'] + id;
    SplitAtFirst(path, '?', id);
    SplitWithoutSeparator(id, '?');
  }
}
