/**
 * The data-file script (get.php): it maps the query string to a file under `data/` and
 * prints that file, or a default graph when there is none.
 */
module DataFile {
  import opened Wrappers
  import opened Chars

  /** `preg_replace('/\W/', '', q)`: every character outside the word class is deleted. */
  function Sanitise(q: string): (name: string)
    ensures AllWord(name) && |name| <= |q|
    decreases |q|
  {
    if q == [] then ""
    else (if IsWordChar(q[0]) then [q[0]] else "") + Sanitise(q[1..])
  }

  /** Of a single character, a word character is kept and any other is dropped. */
  lemma SanitiseChar(c: char)
    ensures Sanitise([c]) == if IsWordChar(c) then [c] else ""
  {
    assert [c][1..] == "";
  }

  /**
   * Sanitising works piece by piece. With `SanitiseChar` this pins the result down: the word
   * characters of `q`, in their order, and nothing else.
   */
  lemma {:induction false} SanitiseAppend(a: string, b: string)
    ensures Sanitise(a + b) == Sanitise(a) + Sanitise(b)
    decreases |a|
  {
    if a != [] {
      var head := if IsWordChar(a[0]) then [a[0]] else "";
      assert (a + b)[0] == a[0];
      assert (a + b)[1..] == a[1..] + b;
      SanitiseAppend(a[1..], b);
      calc {
        Sanitise(a + b);
        head + Sanitise(a[1..] + b);
        head + (Sanitise(a[1..]) + Sanitise(b));
        { AppendAssociative(head, Sanitise(a[1..]), Sanitise(b)); }
        (head + Sanitise(a[1..])) + Sanitise(b);
      }
    } else {
      assert a + b == b;
    }
  }

  /** A word character occurs as often in the name as in the query; any other never does. */
  lemma {:induction false} SanitiseCounts(q: string, c: char)
    ensures Count(Sanitise(q), c) == if IsWordChar(c) then Count(q, c) else 0
    decreases |q|
  {
    if q != [] {
      SanitiseCounts(q[1..], c);
      var head := if IsWordChar(q[0]) then [q[0]] else "";
      CountAppend(head, Sanitise(q[1..]), c);
    }
  }

  lemma {:induction false} CountAppend(a: string, b: string, c: char)
    ensures Count(a + b, c) == Count(a, c) + Count(b, c)
    decreases |a|
  {
    if a != [] {
      assert (a + b)[0] == a[0];
      assert (a + b)[1..] == a[1..] + b;
      CountAppend(a[1..], b, c);
    } else {
      assert a + b == b;
    }
  }

  /** A query made of word characters only is kept as it is. */
  lemma {:induction false} SanitiseKeepsWords(q: string)
    requires AllWord(q)
    ensures Sanitise(q) == q
    decreases |q|
  {
    if q != [] {
      SanitiseKeepsWords(q[1..]);
    }
  }

  /** Sanitising twice is sanitising once. */
  lemma SanitiseIdempotent(q: string)
    ensures Sanitise(Sanitise(q)) == Sanitise(q)
  {
    SanitiseKeepsWords(Sanitise(q));
  }

  /** `$file`. */
  function DataPath(query: string): string {
    "data/" + Sanitise(query) + ".json"
  }

  /**
   * The path is `data/`, the name and `.json`; its only `/` is the one after `data` and its
   * only `.` the one before `json`, so it names a file directly inside `data/`.
   */
  lemma DataPathShape(query: string)
    ensures var p := DataPath(query);
      var name := Sanitise(query);
      |p| == |name| + 10 && p[..5] == "data/" && p[5..|p| - 5] == name && p[|p| - 5..] == ".json" &&
      (forall i :: 0 <= i < |p| && p[i] == '/' ==> i == 4) &&
      (forall i :: 0 <= i < |p| && p[i] == '.' ==> i == |p| - 5)
  {
    var p := DataPath(query);
    var name := Sanitise(query);
    assert p == "data/" + name + ".json";
    forall i | 5 <= i < |p| - 5
      ensures p[i] == name[i - 5]
    {}
  }

  /** The text printed when the file does not exist; `date` is `date('r')`, written unquoted. */
  function FallbackText(date: string): string {
    FallbackHead + date + FallbackTail
  }

  /** The text before the date: the title `untitled` and the author `Anonymous`. */
  const FallbackHead := "{\"metadata\":{\"title\":\"untitled\",\"authors\":[\"Anonymous\"],\"created\":"

  /** The text after the date: visibility `public`, licence `CC-BY-SA` and no vertices. */
  const FallbackTail := ",\"visibility\":\"public\",\"license\":\"CC-BY-SA\"},\"vertices\":[]}"

  /** The date can be read back from between the fixed head and tail. */
  lemma FallbackShape(date: string)
    ensures var t := FallbackText(date);
      |t| == |FallbackHead| + |date| + |FallbackTail| &&
      t[..|FallbackHead|] == FallbackHead &&
      t[|FallbackHead|..|FallbackHead| + |date|] == date &&
      t[|FallbackHead| + |date|..] == FallbackTail
  {
    var t := FallbackText(date);
    assert t[..|FallbackHead|] == FallbackHead;
    assert t[|FallbackHead|..|FallbackHead| + |date|] == date;
    assert t[|FallbackHead| + |date|..] == FallbackTail;
  }

  /**
   * What the script prints for `query` when the server's `data/` directory holds `files`
   * (path to content): the file's content, or the fallback when there is no such file.
   */
  function Output(files: map<string, string>, query: string, date: string): (out: string)
    ensures out in files.Values || out == FallbackText(date)
  {
    var path := DataPath(query);
    if path in files then files[path] else FallbackText(date)
  }

  /** Queries that differ only in non-word characters read the same file. */
  lemma OutputIgnoresNonWord(files: map<string, string>, q: string, r: string, date: string)
    requires Sanitise(q) == Sanitise(r)
    ensures Output(files, q, date) == Output(files, r, date)
  {}

  /** A stored file is printed as it is; a missing one gives the fallback graph. */
  lemma OutputCases(files: map<string, string>, query: string, date: string)
    ensures DataPath(query) in files ==> Output(files, query, date) == files[DataPath(query)]
    ensures DataPath(query) !in files ==> Output(files, query, date) == FallbackText(date)
    ensures DataPath(query) !in files ==>
      var out := Output(files, query, date);
      out[..|FallbackHead|] == FallbackHead && out[|out| - |FallbackTail|..] == FallbackTail
  {
    FallbackShape(date);
  }

  /** A query with a character outside the word class reads the file of its word characters. */
  lemma OutputOfSplitQuery(files: map<string, string>, a: string, c: char, b: string, date: string)
    requires !IsWordChar(c)
    ensures Output(files, a + [c] + b, date) == Output(files, a + b, date)
  {
    SanitiseAppend(a + [c], b);
    SanitiseAppend(a, [c]);
    SanitiseChar(c);
    SanitiseAppend(a, b);
    assert Sanitise(a + [c]) == Sanitise(a);
    assert Sanitise(a + [c] + b) == Sanitise(a + b);
  }
}
