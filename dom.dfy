/**
 * HTML builders (js/dom.js): `tag`, `button` and `select` return markup as text. An optional
 * argument that is missing or false is the empty text here.
 */
module Dom {
  import opened JsValue

  /** The opening tag, with an `id` attribute when the id is not empty. */
  function Open(name: string, id: string): string {
    "<" + name + (if id != "" then " id=" + id else "") + ">"
  }

  function Close(name: string): string {
    "</" + name + ">"
  }

  /** `tag(name, inner, id)`: the inner text wrapped in an opening and a closing `name` tag. */
  function Tag(name: string, inner: string, id: string): (t: string)
    ensures |t| == |Open(name, id)| + |inner| + |Close(name)|
    ensures t[..|Open(name, id)|] == Open(name, id) && t[|t| - |Close(name)|..] == Close(name)
  {
    var o, c := Open(name, id), Close(name);
    assert (o + inner + c)[..|o|] == o;
    assert (o + inner + c)[|o| + |inner|..] == c;
    o + inner + c
  }

  /** The content of a tag is exactly what lies between its opening and its closing tag. */
  lemma TagContent(name: string, inner: string, id: string)
    ensures var t := Tag(name, inner, id);
      |t| == |Open(name, id)| + |inner| + |Close(name)| &&
      t[..|Open(name, id)|] == Open(name, id) &&
      t[|Open(name, id)|..|t| - |Close(name)|] == inner &&
      t[|t| - |Close(name)|..] == Close(name)
  {
    var t := Tag(name, inner, id);
    var o, c := Open(name, id), Close(name);
    assert t == o + inner + c;
    assert t[..|o|] == o;
    assert t[|o|..|t| - |c|] == inner;
    assert t[|t| - |c|..] == c;
  }

  /** Without an id there is no attribute; with one, it is written after the name. */
  lemma OpenShapes(name: string, id: string)
    ensures id == "" ==> Tag(name, "", id) == "<" + name + "></" + name + ">"
    ensures id != "" ==> Open(name, id) == "<" + name + " id=" + id + ">"
  {}

  /** `button(id, label)`: the label, or the id when there is no label, inside a button with that id. */
  function Button(id: string, caption: string): (b: string)
    ensures |b| == |Open("button", id)| + |if caption != "" then caption else id| + |Close("button")|
    ensures b[..|Open("button", id)|] == Open("button", id)
    ensures b[|Open("button", id)|..|b| - |Close("button")|] == if caption != "" then caption else id
  {
    TagContent("button", if caption != "" then caption else id, id);
    Tag("button", if caption != "" then caption else id, id)
  }

  lemma ButtonFallsBackToId(id: string, caption: string)
    ensures caption == "" ==> Button(id, caption) == Tag("button", id, id)
    ensures caption != "" ==> Button(id, caption) == Tag("button", caption, id)
  {}

  /** The options of a menu: an array of values, or an object from values to labels. */
  datatype Options =
    | List(values: seq<string>)
    | Dict(entries: seq<(string, string)>)

  /** The (value, label) pairs in `for...in` order: for an array both are the element. */
  function Items(options: Options): (r: seq<(string, string)>)
    ensures options.List? ==> |r| == |options.values|
    ensures options.List? ==> forall i :: 0 <= i < |r| ==> r[i] == (options.values[i], options.values[i])
    ensures options.Dict? ==> r == options.entries
  {
    match options
    case List(values) => seq(|values|, i requires 0 <= i < |values| => (values[i], values[i]))
    case Dict(entries) => entries
  }

  /** An `<option>` element before rendering. */
  datatype OptionElem = OptionElem(value: string, text: string, marked: bool)

  /** The option is marked when its value equals the selected value; nothing equals a missing one. */
  predicate IsSelected(value: string, selected: Value) {
    selected == Str(value)
  }

  function Elements(items: seq<(string, string)>, selected: Value): (r: seq<OptionElem>)
    ensures |r| == |items|
    ensures forall i :: 0 <= i < |r| ==>
      r[i].value == items[i].0 && r[i].text == items[i].1 &&
      (r[i].marked <==> IsSelected(items[i].0, selected))
  {
    seq(|items|, i requires 0 <= i < |items| =>
      OptionElem(items[i].0, items[i].1, IsSelected(items[i].0, selected)))
  }

  /** One option as `select` writes it (no space before `selected=selected`). */
  function OptionTag(o: OptionElem): string {
    "<option value=\"" + o.value + "\"" + (if o.marked then "selected=selected" else "") + ">" +
      o.text + "</option>"
  }

  /** The options one after the other, in order. */
  function Render(elems: seq<OptionElem>): string
    decreases |elems|
  {
    if elems == [] then "" else Render(elems[..|elems| - 1]) + OptionTag(elems[|elems| - 1])
  }

  lemma RenderAppend(elems: seq<OptionElem>, o: OptionElem)
    ensures Render(elems + [o]) == Render(elems) + OptionTag(o)
  {
    assert (elems + [o])[..|elems|] == elems;
  }

  /** `select(id, options, selected)`, built with `+=` as the source does. */
  method Select(id: string, options: Options, selected: Value) returns (html: string)
    ensures html == Tag("select", Render(Elements(Items(options), selected)), id)
  {
    var items := Items(options);
    var elems := Elements(items, selected);
    var inner := "";
    var i := 0;
    while i < |items|
      invariant 0 <= i <= |items|
      invariant inner == Render(elems[..i])
    {
      var value := items[i].0;
      var option := "<option value=\"" + value + "\"" +
        (if IsSelected(value, selected) then "selected=selected" else "") + ">" +
        items[i].1 + "</option>";
      assert option == OptionTag(elems[i]);
      assert elems[..i + 1] == elems[..i] + [elems[i]];
      RenderAppend(elems[..i], elems[i]);
      inner := inner + option;
      i := i + 1;
    }
    assert elems[..|items|] == elems;
    html := Tag("select", inner, id);
  }

  /** Without a selected text value no option is marked. */
  lemma NothingMarkedWithoutSelection(options: Options, selected: Value)
    requires !selected.Str?
    ensures forall o :: o in Elements(Items(options), selected) ==> !o.marked
  {}

  /** With distinct values at most one option is marked, and it is the one carrying the selected value. */
  lemma AtMostOneMarked(items: seq<(string, string)>, selected: Value, i: int, j: int)
    requires forall k, l :: 0 <= k < l < |items| ==> items[k].0 != items[l].0
    requires 0 <= i < |items| && 0 <= j < |items|
    requires Elements(items, selected)[i].marked && Elements(items, selected)[j].marked
    ensures i == j && selected == Str(items[i].0)
  {
    if i != j {
      assert false;
    }
  }
}
