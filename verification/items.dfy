/**
 * The item classes: `Movie`, `Book` and `VideoGame`, each with the identifier `Item`
 * stores, and what `get_genres` gives back for each of them.
 *
 * A constructor argument is a Python value that the code only converts with `str` or tests
 * with `isinstance(_, list)`, so a value is either a list or an atom that carries its two
 * textual forms (`str(x)` and `repr(x)`). `str` of a list is the list's `repr`.
 */
module Items {
  import opened Wrappers

  datatype PyValue =
    | Atom(text: string, repr: string)
    | List(elems: seq<PyValue>)

  /** `", ".join(parts)` and `"|".join(parts)`: the parts with `sep` between consecutive ones. */
  function Join(sep: string, parts: seq<string>): (s: string)
    ensures |parts| == 0 ==> s == ""
    ensures |parts| == 1 ==> s == parts[0]
  {
    if |parts| == 0 then ""
    else if |parts| == 1 then parts[0]
    else parts[0] + sep + Join(sep, parts[1..])
  }

  /** `repr(v)`: an atom's own form, or a list written `[e1, e2, ...]`. */
  function Repr(v: PyValue): (s: string)
    ensures v.List? ==> |s| >= 2 && s[0] == '[' && s[|s| - 1] == ']'
  {
    match v
    case Atom(_, r) => r
    case List(es) => "[" + Join(", ", seq(|es|, i requires 0 <= i < |es| => Repr(es[i]))) + "]"
  }

  /** `str(v)`: an atom's text; for a list, the same as `repr`. */
  function Str(v: PyValue): (s: string)
    ensures v.Atom? ==> s == v.text
    ensures v.List? ==> s == Repr(v)
  {
    if v.Atom? then v.text else Repr(v)
  }

  /** What `cat if isinstance(cat, list) else [cat]` iterates over. */
  function Pieces(cat: PyValue): (ps: seq<PyValue>)
    ensures cat.Atom? ==> ps == [cat]
  {
    if cat.List? then cat.elems else [cat]
  }

  /** `[str(x) for x in xs]`. */
  function StrAll(xs: seq<PyValue>): (ss: seq<string>)
    ensures |ss| == |xs|
    ensures forall i :: 0 <= i < |xs| ==> ss[i] == Str(xs[i])
  {
    seq(|xs|, i requires 0 <= i < |xs| => Str(xs[i]))
  }

  /**
   * `[str(x) for cat in categories for x in (cat if isinstance(cat, list) else [cat])]`:
   * the categories flattened by exactly one level, in order.
   */
  function Flatten(cats: seq<PyValue>): (flat: seq<string>)
  {
    if |cats| == 0 then [] else StrAll(Pieces(cats[0])) + Flatten(cats[1..])
  }

  /** `VideoGame.__init__`'s category text: a list is flattened and joined with `|`; anything else is `str`-converted. */
  function CategoryText(categories: PyValue): (s: string)
  {
    if categories.List? then Join("|", Flatten(categories.elems)) else Str(categories)
  }

  /** `str.split(sep)` for a one-character separator: never empty; `""` gives `[""]`. */
  function Split(s: string, sep: char): (parts: seq<string>)
    ensures |parts| >= 1
    ensures forall i :: 0 <= i < |parts| ==> sep !in parts[i]
  {
    if |s| == 0 then [""]
    else
      var rest := Split(s[1..], sep);
      if s[0] == sep then [""] + rest
      else [[s[0]] + rest[0]] + rest[1..]
  }

  datatype Item =
    | Movie(id: string, title: string, released: PyValue, genres: PyValue)
    | Book(id: string, title: string, author: string, published: int, publisher: string)
    | VideoGame(id: string, title: string, categories: string, price: PyValue, brand: PyValue, description: PyValue)

  /** `get_id`: the identifier `Item.__init__` stored. */
  function GetId(it: Item): (id: string)
    ensures id == it.id
  {
    it.id
  }

  /** What `get_genres` gives: a movie's genre list, a video game's category text, or NotImplementedError. */
  datatype Genres = GenreList(value: PyValue) | GenreText(text: string) | NotImplemented

  function GetGenres(it: Item): (g: Genres)
    ensures g.NotImplemented? <==> it.Book?
  {
    match it
    case Movie(_, _, _, genres) => GenreList(genres)
    case Book(_, _, _, _, _) => NotImplemented
    case VideoGame(_, _, categories, _, _, _) => GenreText(categories)
  }

  /** `Movie(movie_id, titol, any_mov, generes)`: the genres are kept as given. */
  function NewMovie(movieId: PyValue, titol: PyValue, anyMov: PyValue, generes: PyValue): (it: Item)
    ensures it.Movie?
    ensures GetId(it) == Str(movieId) && it.title == Str(titol)
    ensures GetGenres(it) == GenreList(generes)
  {
    Movie(Str(movieId), Str(titol), anyMov, generes)
  }

  /**
   * `Book(isbn, titol, author, any_pub, publisher)`. `anyPub` is the outcome of `int(any_pub)`,
   * `None` when that conversion raises, in which case the constructor raises ValueError (`None`).
   */
  function NewBook(isbn: PyValue, titol: PyValue, author: PyValue, anyPub: Option<int>, publisher: PyValue): (it: Option<Item>)
    ensures it.Some? <==> anyPub.Some?
    ensures it.Some? ==> it.value.Book? && GetId(it.value) == Str(isbn) && it.value.published == anyPub.value
    ensures it.Some? ==> GetGenres(it.value).NotImplemented?
  {
    match anyPub
    case None => None
    case Some(year) => Some(Book(Str(isbn), Str(titol), Str(author), year, Str(publisher)))
  }

  /** `VideoGame(asin, titol, categories, price, brand, description)`. */
  function NewVideoGame(asin: PyValue, titol: PyValue, categories: PyValue, price: PyValue, brand: PyValue, description: PyValue): (it: Item)
    ensures it.VideoGame?
    ensures GetId(it) == Str(asin) && it.title == Str(titol)
    ensures GetGenres(it) == GenreText(CategoryText(categories))
  {
    VideoGame(Str(asin), Str(titol), CategoryText(categories), price, brand, description)
  }

  /** `VideoGame`'s defaults: brand `"Unknown"` and description `"..."`. */
  function NewVideoGameDefaults(asin: PyValue, titol: PyValue, categories: PyValue, price: PyValue): (it: Item)
    ensures it.VideoGame? && it.brand.Atom? && it.brand.text == "Unknown"
    ensures it.description.Atom? && it.description.text == "..."
    ensures GetGenres(it) == GenreText(CategoryText(categories))
  {
    NewVideoGame(asin, titol, categories, price, Atom("Unknown", "'Unknown'"), Atom("...", "'...'"))
  }

  /**
   * A Python `str` value. Its `repr` is the text in single quotes; the escaping `repr` applies
   * to quotes and control characters inside the text is not modelled.
   */
  function PyStr(s: string): (v: PyValue)
    ensures v.Atom? && Str(v) == s
  {
    Atom(s, "'" + s + "'")
  }

  /**
   * One genre text per item, as a dataset-level `get_genres` would have to give it for the
   * content-based strategy to strip and lower-case it: a video game's categories text as
   * stored, nothing for a book, whose `get_genres` raises, and a movie's genre list joined
   * with `|`. That join is an assumption: the dataset classes define no `get_genres`, and
   * `Movie.get_genres` returns the list itself.
   */
  function FeatureText(it: Item): (t: Option<string>)
    ensures t.None? <==> GetGenres(it).NotImplemented?
    ensures it.VideoGame? ==> t == Some(it.categories)
  {
    match GetGenres(it)
    case GenreList(genres) => Some(CategoryText(genres))
    case GenreText(text) => Some(text)
    case NotImplemented => None
  }

  /** The assumed dataset-level genre texts: one per item in column order, or nothing when any item is a book. */
  function FeatureColumn(items: seq<Item>): (g: Option<seq<string>>)
    ensures g.None? <==> exists i :: 0 <= i < |items| && items[i].Book?
    ensures g.Some? ==> |g.value| == |items| && forall i :: 0 <= i < |items| ==> Some(g.value[i]) == FeatureText(items[i])
  {
    if exists i :: 0 <= i < |items| && items[i].Book? then None
    else Some(seq(|items|, i requires 0 <= i < |items| => FeatureText(items[i]).value))
  }

  /**
   * Under the join `FeatureText` assumes, a movie built from a CSV genre field split on `|`
   * gives that field back as its genre text.
   */
  lemma MovieGenresRoundTrip(movieId: PyValue, titol: PyValue, anyMov: PyValue, field: string)
    ensures var parts := Split(field, '|');
      FeatureText(NewMovie(movieId, titol, anyMov, List(seq(|parts|, i requires 0 <= i < |parts| => PyStr(parts[i]))))) == Some(field)
  {
    var parts := Split(field, '|');
    var genres := seq(|parts|, i requires 0 <= i < |parts| => PyStr(parts[i]));
    FlattenAtoms(genres);
    assert StrAll(genres) == parts;
    JoinSplit(field, '|');
  }

  // ---------------------------------------------------------------------------
  // Flattening

  /** Flattening distributes over concatenation. */
  lemma {:induction false} FlattenAppend(a: seq<PyValue>, b: seq<PyValue>)
    ensures Flatten(a + b) == Flatten(a) + Flatten(b)
  {
    if |a| == 0 {
      assert a + b == b;
    } else {
      assert (a + b)[1..] == a[1..] + b;
      FlattenAppend(a[1..], b);
    }
  }

  /** A list with no nested list flattens to the `str` of each element, in order. */
  lemma {:induction false} FlattenAtoms(cats: seq<PyValue>)
    requires forall i :: 0 <= i < |cats| ==> cats[i].Atom?
    ensures Flatten(cats) == StrAll(cats)
  {
    if |cats| > 0 {
      FlattenAtoms(cats[1..]);
      assert StrAll(cats) == [Str(cats[0])] + StrAll(cats[1..]);
    }
  }

  /** Flattening removes exactly one level: the elements of a nested list are `str`-converted, not flattened further. */
  lemma FlattenOneLevel(es: seq<PyValue>)
    ensures Flatten([List(es)]) == StrAll(es)
  {
    assert Flatten([List(es)]) == StrAll(es) + Flatten([]);
  }

  /** The flattened list is empty exactly when every category is an empty list. */
  lemma {:induction false} FlattenEmpty(cats: seq<PyValue>)
    ensures Flatten(cats) == [] <==> forall i :: 0 <= i < |cats| ==> cats[i] == List([])
  {
    if |cats| > 0 {
      FlattenEmpty(cats[1..]);
      assert forall i :: 1 <= i < |cats| ==> cats[i] == cats[1..][i - 1];
    }
  }

  /** A list holding one atom is written `[` + the atom's `repr` + `]`. */
  lemma ReprSingleton(x: PyValue)
    requires x.Atom?
    ensures Repr(List([x])) == "[" + x.repr + "]"
  {
    assert seq(1, i requires 0 <= i < 1 => Repr([x][i])) == [x.repr];
  }

  /** The categories of the worked example below flatten to four pieces. */
  lemma FlattenShape(a: PyValue, b: PyValue, c: PyValue, x: PyValue)
    requires a.Atom? && b.Atom? && c.Atom? && x.Atom?
    ensures Flatten([List([a, b]), c, List([List([x])])]) == [a.text, b.text, c.text, Repr(List([x]))]
  {
    var cats := [List([a, b]), c, List([List([x])])];
    assert Flatten(cats[2..]) == [Repr(List([x]))] by {
      assert Flatten(cats[3..]) == [];
    }
    assert Flatten(cats[1..]) == [c.text, Repr(List([x]))] by {
      assert cats[1..][1..] == cats[2..];
    }
  }

  /** Joining four parts puts the separator between each consecutive pair. */
  lemma JoinFour(sep: string, p: string, q: string, r: string, t: string)
    ensures Join(sep, [p, q, r, t]) == p + sep + (q + sep + (r + sep + t))
  {
    var parts := [p, q, r, t];
    assert parts[1..][1..] == [r, t];
    assert Join(sep, [r, t]) == r + sep + t;
  }

  /** Worked example: `[["Action", "RPG"], "PC", [["x"]]]` gives `"Action|RPG|PC|['x']"`. */
  lemma CategoryExample()
    ensures CategoryText(List([List([Atom("Action", "'Action'"), Atom("RPG", "'RPG'")]), Atom("PC", "'PC'"), List([List([Atom("x", "'x'")])])]))
            == "Action|RPG|PC|['x']"
  {
    var action, rpg, pc, x := Atom("Action", "'Action'"), Atom("RPG", "'RPG'"), Atom("PC", "'PC'"), Atom("x", "'x'");
    FlattenShape(action, rpg, pc, x);
    ReprSingleton(x);
    assert "[" + "'x'" + "]" == "['x']";
    JoinFour("|", "Action", "RPG", "PC", "['x']");
    assert "PC" + "|" + "['x']" == "PC|['x']";
    assert "RPG" + "|" + "PC|['x']" == "RPG|PC|['x']";
    assert "Action" + "|" + "RPG|PC|['x']" == "Action|RPG|PC|['x']";
  }

  /** An empty category list gives the empty string; a non-list is `str`-converted. */
  lemma CategoryTextCases(v: PyValue)
    ensures CategoryText(List([])) == ""
    ensures v.Atom? ==> CategoryText(v) == v.text
  {
  }

  // ---------------------------------------------------------------------------
  // Join and split

  /** Joining the pieces of a split gives the original text back. */
  lemma {:induction false} JoinSplit(s: string, sep: char)
    ensures Join([sep], Split(s, sep)) == s
  {
    if |s| > 0 {
      JoinSplit(s[1..], sep);
      var rest := Split(s[1..], sep);
      if s[0] == sep {
        assert s == [sep] + s[1..];
        if |rest| == 1 {
          assert Join([sep], [""] + rest) == "" + [sep] + rest[0];
        } else {
          assert ([""] + rest)[1..] == rest;
        }
      } else {
        assert s == [s[0]] + s[1..];
        var parts := [[s[0]] + rest[0]] + rest[1..];
        if |rest| == 1 {
          assert parts == [[s[0]] + rest[0]];
        } else {
          assert parts[1..] == rest[1..];
          assert Join([sep], rest) == rest[0] + [sep] + Join([sep], rest[1..]);
        }
      }
    }
  }

  /** Splitting a text free of the separator that is followed by more text: the text is the start of the first piece. */
  lemma {:induction false} SplitPrefix(a: string, b: string, sep: char)
    requires sep !in a
    ensures Split(a + b, sep) == [a + Split(b, sep)[0]] + Split(b, sep)[1..]
  {
    if |a| > 0 {
      SplitPrefix(a[1..], b, sep);
      assert (a + b)[1..] == a[1..] + b;
      assert (a + b)[0] == a[0];
      assert [a[0]] + (a[1..] + Split(b, sep)[0]) == a + Split(b, sep)[0];
    } else {
      var parts := Split(b, sep);
      assert a + b == b && a + parts[0] == parts[0];
      assert parts == [parts[0]] + parts[1..];
    }
  }

  /** Splitting a join of separator-free pieces gives the pieces back. */
  lemma {:induction false} SplitJoin(parts: seq<string>, sep: char)
    requires |parts| >= 1
    requires forall i :: 0 <= i < |parts| ==> sep !in parts[i]
    ensures Split(Join([sep], parts), sep) == parts
  {
    if |parts| == 1 {
      SplitPrefix(parts[0], "", sep);
      assert parts[0] + "" == parts[0];
    } else {
      SplitJoin(parts[1..], sep);
      var tail := Join([sep], parts[1..]);
      assert Join([sep], parts) == parts[0] + ([sep] + tail);
      SplitPrefix(parts[0], [sep] + tail, sep);
      assert ([sep] + tail)[1..] == tail;
      assert Split([sep] + tail, sep) == [""] + parts[1..];
      assert parts[0] + "" == parts[0];
      assert parts == [parts[0]] + parts[1..];
    }
  }
}
