/** The filter bar's URL handling: a URLSearchParams list of name-value
    pairs with the `delete` and `set` operations of section 6.2 of the
    WHATWG URL Standard, `createQueryString`, and the initial values read
    back from the URL. Serialisation to text is not modelled: a query
    string is its list of pairs. */
module Filters {
  import opened Wrappers

  /** One name-value pair of a URLSearchParams list. */
  datatype Pair = Pair(name: string, value: string)

  // ---------------------------------------------------------------------
  // The list operations
  // ---------------------------------------------------------------------

  /** The pairs named `n`, in list order. */
  function Named(l: seq<Pair>, n: string): (r: seq<Pair>)
    ensures forall i :: 0 <= i < |r| ==> r[i].name == n
    ensures |r| <= |l|
  {
    if l == [] then []
    else (if l[0].name == n then [l[0]] else []) + Named(l[1..], n)
  }

  /** delete(name): the list without any pair named `n`, the rest in order. */
  function WithoutName(l: seq<Pair>, n: string): (r: seq<Pair>)
    ensures forall i :: 0 <= i < |r| ==> r[i].name != n
    ensures |r| <= |l|
  {
    if l == [] then []
    else (if l[0].name == n then [] else [l[0]]) + WithoutName(l[1..], n)
  }

  /** set(name, value), as a scan of `l` that has already passed the first
      pair named `n` when `found` holds: the first pair named `n` takes the
      new value, later ones are dropped, and a pair is appended when there
      was none. */
  function SetFrom(l: seq<Pair>, n: string, v: string, found: bool): seq<Pair> {
    if l == [] then (if found then [] else [Pair(n, v)])
    else if l[0].name == n then (if found then [] else [Pair(n, v)]) + SetFrom(l[1..], n, v, true)
    else [l[0]] + SetFrom(l[1..], n, v, found)
  }

  /** get(name): the value of the first pair named `n`, or null. */
  function FirstValue(l: seq<Pair>, n: string): Option<string> {
    if l == [] then None
    else if l[0].name == n then Some(l[0].value)
    else FirstValue(l[1..], n)
  }

  /** The position of the first pair named `n`, if there is one. */
  function FirstIndex(l: seq<Pair>, n: string): (r: Option<nat>)
    ensures r.Some? ==> r.value < |l| && l[r.value].name == n
    ensures r.Some? ==> forall j :: 0 <= j < r.value ==> l[j].name != n
    ensures r.None? ==> forall j :: 0 <= j < |l| ==> l[j].name != n
  {
    if l == [] then None
    else if l[0].name == n then Some(0)
    else match FirstIndex(l[1..], n)
      case None => None
      case Some(i) => Some(i + 1)
  }

  /** set(name, value) as section 6.2 of the WHATWG URL Standard words it:
      if the list contains a pair named `n`, set the value of the first such
      pair to `v` and remove the others; otherwise append (n, v). */
  function SetAsStandard(l: seq<Pair>, n: string, v: string): seq<Pair> {
    match FirstIndex(l, n)
    case None => l + [Pair(n, v)]
    case Some(i) => l[..i] + [Pair(n, v)] + WithoutName(l[i + 1..], n)
  }

  // ---------------------------------------------------------------------
  // Properties of the list operations
  // ---------------------------------------------------------------------

  /** A list without pairs named `n` is its own `WithoutName`. */
  lemma {:induction false} WithoutNameOfNoName(l: seq<Pair>, n: string)
    requires forall i :: 0 <= i < |l| ==> l[i].name != n
    ensures WithoutName(l, n) == l
  {
    if l != [] {
      WithoutNameOfNoName(l[1..], n);
      assert l == [l[0]] + l[1..];
    }
  }

  /** Deleting a name leaves the pairs of every other name as they were. */
  lemma {:induction false} WithoutNameKeepsOthers(l: seq<Pair>, n: string, m: string)
    requires m != n
    ensures Named(WithoutName(l, n), m) == Named(l, m)
  {
    if l != [] {
      WithoutNameKeepsOthers(l[1..], n, m);
      var head := if l[0].name == n then [] else [l[0]];
      assert WithoutName(l, n) == head + WithoutName(l[1..], n);
      NamedOfConcat(head, WithoutName(l[1..], n), m);
    }
  }

  lemma {:induction false} NamedOfConcat(a: seq<Pair>, b: seq<Pair>, m: string)
    ensures Named(a + b, m) == Named(a, m) + Named(b, m)
  {
    if a == [] {
      assert a + b == b;
    } else {
      assert (a + b)[1..] == a[1..] + b;
      NamedOfConcat(a[1..], b, m);
    }
  }

  lemma {:induction false} WithoutNameOfConcat(a: seq<Pair>, b: seq<Pair>, n: string)
    ensures WithoutName(a + b, n) == WithoutName(a, n) + WithoutName(b, n)
  {
    if a == [] {
      assert a + b == b;
    } else {
      assert (a + b)[1..] == a[1..] + b;
      WithoutNameOfConcat(a[1..], b, n);
    }
  }

  /** Deleting twice is deleting once. */
  lemma WithoutNameIdempotent(l: seq<Pair>, n: string)
    ensures WithoutName(WithoutName(l, n), n) == WithoutName(l, n)
  {
    WithoutNameOfNoName(WithoutName(l, n), n);
  }

  /** After delete(n) there is no pair named `n`. */
  lemma {:induction false} NamedOfWithoutName(l: seq<Pair>, n: string)
    ensures Named(WithoutName(l, n), n) == []
  {
    if l != [] {
      NamedOfWithoutName(l[1..], n);
      var head := if l[0].name == n then [] else [l[0]];
      NamedOfConcat(head, WithoutName(l[1..], n), n);
    }
  }

  /** set(n, v) leaves exactly one pair named `n`, holding `v` (none more when the scan is past the first). */
  lemma {:induction false} NamedOfSet(l: seq<Pair>, n: string, v: string, found: bool)
    ensures Named(SetFrom(l, n, v, found), n) == if found then [] else [Pair(n, v)]
  {
    if l != [] {
      NamedOfSet(l[1..], n, v, if l[0].name == n then true else found);
      var head := if l[0].name == n then (if found then [] else [Pair(n, v)]) else [l[0]];
      NamedOfConcat(head, SetFrom(l[1..], n, v, if l[0].name == n then true else found), n);
    }
  }

  /** set(n, v) keeps every pair of another name, in the same order relative to each other. */
  lemma {:induction false} SetKeepsOthers(l: seq<Pair>, n: string, v: string, found: bool)
    ensures WithoutName(SetFrom(l, n, v, found), n) == WithoutName(l, n)
  {
    if l == [] {
    } else {
      var f' := if l[0].name == n then true else found;
      SetKeepsOthers(l[1..], n, v, f');
      var head := if l[0].name == n then (if found then [] else [Pair(n, v)]) else [l[0]];
      WithoutNameOfConcat(head, SetFrom(l[1..], n, v, f'), n);
    }
  }

  /** Once the first pair named `n` is behind the scan, the rest is delete(n). */
  lemma {:induction false} SetPastFirstIsDelete(l: seq<Pair>, n: string, v: string)
    ensures SetFrom(l, n, v, true) == WithoutName(l, n)
  {
    if l != [] {
      SetPastFirstIsDelete(l[1..], n, v);
    }
  }

  /** Without a pair named `n`, the scan copies the list and appends (n, v). */
  lemma {:induction false} SetOfNoName(l: seq<Pair>, n: string, v: string)
    requires forall j :: 0 <= j < |l| ==> l[j].name != n
    ensures SetFrom(l, n, v, false) == l + [Pair(n, v)]
  {
    if l != [] {
      SetOfNoName(l[1..], n, v);
      assert l + [Pair(n, v)] == [l[0]] + (l[1..] + [Pair(n, v)]);
    }
  }

  /** The scan computes exactly the set operation of the WHATWG URL Standard. */
  lemma {:induction false} SetMatchesStandard(l: seq<Pair>, n: string, v: string)
    ensures SetFrom(l, n, v, false) == SetAsStandard(l, n, v)
  {
    if l == [] {
    } else if l[0].name == n {
      SetPastFirstIsDelete(l[1..], n, v);
      assert l[..0] == [];
    } else {
      SetMatchesStandard(l[1..], n, v);
      match FirstIndex(l[1..], n)
      case None =>
        SetOfNoName(l[1..], n, v);
        assert l + [Pair(n, v)] == [l[0]] + (l[1..] + [Pair(n, v)]);
      case Some(i) =>
        assert l[..i + 1] == [l[0]] + l[1..][..i];
        assert l[i + 2..] == l[1..][i + 1..];
    }
  }

  /** get(n) is the value of the first of the pairs named `n`. */
  lemma {:induction false} FirstValueOfNamed(l: seq<Pair>, n: string)
    ensures FirstValue(l, n) == if Named(l, n) == [] then None else Some(Named(l, n)[0].value)
  {
    if l != [] {
      FirstValueOfNamed(l[1..], n);
    }
  }

  // ---------------------------------------------------------------------
  // The URLSearchParams object
  // ---------------------------------------------------------------------

  /** A URLSearchParams object: its list of pairs, changed in place by delete and set. */
  class SearchParams {
    var pairs: seq<Pair>

    /** new URLSearchParams(init): a copy of the given list. */
    constructor (init: seq<Pair>)
      ensures pairs == init
    {
      pairs := init;
    }

    /** delete(name): removes every pair named `name`. */
    method Delete(name: string)
      modifies this
      ensures pairs == WithoutName(old(pairs), name)
    {
      var kept: seq<Pair> := [];
      var i := 0;
      while i < |pairs|
        invariant 0 <= i <= |pairs|
        invariant kept + WithoutName(pairs[i..], name) == WithoutName(pairs, name)
      {
        assert pairs[i..][1..] == pairs[i + 1..];
        if pairs[i].name != name {
          kept := kept + [pairs[i]];
        }
        i := i + 1;
      }
      pairs := kept;
    }

    /** set(name, value): the first pair named `name` takes `value` and the
        others named so are removed; without one, (name, value) is appended. */
    method Set(name: string, value: string)
      modifies this
      ensures pairs == SetFrom(old(pairs), name, value, false)
      ensures pairs == SetAsStandard(old(pairs), name, value)
    {
      var l := pairs;
      var result: seq<Pair> := [];
      var found := false;
      var i := 0;
      while i < |l|
        invariant 0 <= i <= |l|
        invariant result + SetFrom(l[i..], name, value, found) == SetFrom(l, name, value, false)
      {
        assert l[i..][1..] == l[i + 1..];
        if l[i].name == name {
          if !found {
            result := result + [Pair(name, value)];
            found := true;
          }
        } else {
          result := result + [l[i]];
        }
        i := i + 1;
      }
      if !found {
        result := result + [Pair(name, value)];
      }
      SetMatchesStandard(l, name, value);
      pairs := result;
    }
  }

  // ---------------------------------------------------------------------
  // createQueryString and the initial filter values
  // ---------------------------------------------------------------------

  /** The values 'all' and '' mean "no filter" to createQueryString. */
  predicate ClearsParam(value: string) {
    value == "all" || value == ""
  }

  /** The pairs createQueryString produces: `name` removed for a clearing value, set otherwise. */
  function QueryString(current: seq<Pair>, name: string, value: string): seq<Pair> {
    if ClearsParam(value) then WithoutName(current, name) else SetFrom(current, name, value, false)
  }

  /** createQueryString: copies the current parameters and deletes or sets `name`. */
  method CreateQueryString(current: seq<Pair>, name: string, value: string) returns (r: seq<Pair>)
    ensures r == QueryString(current, name, value)
    ensures ClearsParam(value) ==> Named(r, name) == []
    ensures !ClearsParam(value) ==> Named(r, name) == [Pair(name, value)]
    ensures WithoutName(r, name) == WithoutName(current, name)
  {
    var params := new SearchParams(current);
    if value == "all" || value == "" {
      params.Delete(name);
      NamedOfWithoutName(current, name);
      WithoutNameIdempotent(current, name);
    } else {
      params.Set(name, value);
      NamedOfSet(current, name, value, false);
      SetKeepsOthers(current, name, value, false);
    }
    r := params.pairs;
  }

  /** The search text the filter bar starts from: the `query` parameter, or ''. */
  function InitialQuery(l: seq<Pair>): (q: string)
    ensures FirstValue(l, "query").None? ==> q == ""
    ensures FirstValue(l, "query").Some? ==> q == FirstValue(l, "query").value
  {
    FirstValue(l, "query").GetOr("")
  }

  /** The genre the filter bar starts from: the `genre` parameter, or 'all'. */
  function InitialGenre(l: seq<Pair>): (g: string)
    ensures FirstValue(l, "genre").None? ==> g == "all"
    ensures FirstValue(l, "genre").Some? ==> g == FirstValue(l, "genre").value
  {
    FirstValue(l, "genre").GetOr("all")
  }

  /** Choosing a genre and reading the URL back gives that genre; clearing it gives 'all'. */
  lemma GenreRoundTrip(current: seq<Pair>, g: string)
    ensures InitialGenre(QueryString(current, "genre", g)) == if g == "" then "all" else g
  {
    var r := QueryString(current, "genre", g);
    FirstValueOfNamed(r, "genre");
    if ClearsParam(g) {
      NamedOfWithoutName(current, "genre");
    } else {
      NamedOfSet(current, "genre", g, false);
    }
  }

  /** Changing one filter leaves the other as it was. */
  lemma OtherFilterUnchanged(current: seq<Pair>, name: string, value: string)
    requires name == "query" || name == "genre"
    ensures name == "genre" ==> InitialQuery(QueryString(current, name, value)) == InitialQuery(current)
    ensures name == "query" ==> InitialGenre(QueryString(current, name, value)) == InitialGenre(current)
  {
    var r := QueryString(current, name, value);
    var other := if name == "genre" then "query" else "genre";
    if ClearsParam(value) {
      WithoutNameKeepsOthers(current, name, other);
    } else {
      SetKeepsOthers(current, name, value, false);
      WithoutNameKeepsOthers(r, name, other);
      WithoutNameKeepsOthers(current, name, other);
    }
    FirstValueOfNamed(r, other);
    FirstValueOfNamed(current, other);
  }

  /** As written, the 'all' sentinel of the genre selector also clears the
      search text: searching for the word "all" leaves no `query` in the
      URL, which reads back as the empty search. */
  lemma QueryAllIsDropped(current: seq<Pair>)
    ensures Named(QueryString(current, "query", "all"), "query") == []
    ensures InitialQuery(QueryString(current, "query", "all")) == ""
  {
    NamedOfWithoutName(current, "query");
    FirstValueOfNamed(QueryString(current, "query", "all"), "query");
  }

  /** createQueryString with the 'all' sentinel confined to the genre parameter. */
  function IntendedQueryString(current: seq<Pair>, name: string, value: string): (r: seq<Pair>)
    ensures value == "" || (name == "genre" && value == "all") ==> Named(r, name) == []
    ensures !(value == "" || (name == "genre" && value == "all")) ==> Named(r, name) == [Pair(name, value)]
    ensures WithoutName(r, name) == WithoutName(current, name)
  {
    if value == "" || (name == "genre" && value == "all") then
      NamedOfWithoutName(current, name);
      WithoutNameIdempotent(current, name);
      WithoutName(current, name)
    else
      NamedOfSet(current, name, value, false);
      SetKeepsOthers(current, name, value, false);
      SetFrom(current, name, value, false)
  }

  /** With the sentinel confined to the genre, every search text reads back as typed. */
  lemma IntendedQueryRoundTrip(current: seq<Pair>, q: string)
    ensures InitialQuery(IntendedQueryString(current, "query", q)) == q
  {
    FirstValueOfNamed(IntendedQueryString(current, "query", q), "query");
  }

  /** The genre selector behaves as before under the intended definition. */
  lemma IntendedGenreUnchanged(current: seq<Pair>, g: string)
    ensures IntendedQueryString(current, "genre", g) == QueryString(current, "genre", g)
  {
  }
}
