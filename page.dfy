/** The home page's reading of its URL search parameters: `query` and
    `genre` arrive as a string, an array of strings or nothing, and are
    normalised to plain strings; `genreId` drops the 'all' sentinel. */
module Page {
  import Filters

  /** A search parameter as the framework hands it over. */
  datatype SearchParam = Undefined | Str(s: string) | Arr(items: seq<string>)

  /** A string passes through, an array gives its first element or the
      fallback when it is empty, and an absent parameter gives the fallback. */
  function Param(raw: SearchParam, fallback: string): (r: string)
    ensures raw.Str? ==> r == raw.s
    ensures raw.Arr? && raw.items != [] ==> r == raw.items[0]
    ensures raw.Undefined? || (raw.Arr? && raw.items == []) ==> r == fallback
  {
    match raw
    case Str(s) => s
    case Arr(items) => if items != [] then items[0] else fallback
    case Undefined => fallback
  }

  /** The search text: `query`, or "" by default. */
  function Query(raw: SearchParam): string {
    Param(raw, "")
  }

  /** The selected genre: `genre`, or "all" by default. */
  function GenreOf(raw: SearchParam): string {
    Param(raw, "all")
  }

  /** The genre id handed to the repository: "" for the 'all' sentinel, the genre otherwise. */
  function GenreId(genre: string): (r: string)
    ensures genre == "all" ==> r == ""
    ensures genre != "all" ==> r == genre
  {
    if genre == "all" then "" else genre
  }

  /** genreId is "" exactly when the genre is 'all' or itself empty. */
  lemma GenreIdEmpty(raw: SearchParam)
    ensures GenreId(GenreOf(raw)) == "" <==> GenreOf(raw) == "all" || GenreOf(raw) == ""
  {
  }

  /** A missing parameter and an empty array select every genre and the empty search. */
  lemma DefaultsWhenMissing()
    ensures Query(Undefined) == "" && Query(Arr([])) == ""
    ensures GenreOf(Undefined) == "all" && GenreOf(Arr([])) == "all"
    ensures GenreId(GenreOf(Undefined)) == ""
  {
  }

  /** How a URL's pairs become a search parameter: absent when no pair has
      the name, a string for one pair, an array of the values for several. */
  function ParamOf(l: seq<Filters.Pair>, name: string): (r: SearchParam)
    ensures r.Undefined? <==> Filters.Named(l, name) == []
    ensures r.Str? <==> |Filters.Named(l, name)| == 1
    ensures r.Arr? ==> |r.items| == |Filters.Named(l, name)| >= 2
    ensures r.Str? ==> r.s == Filters.Named(l, name)[0].value
    ensures r.Arr? ==> forall i :: 0 <= i < |r.items| ==> r.items[i] == Filters.Named(l, name)[i].value
  {
    var named := Filters.Named(l, name);
    if named == [] then Undefined
    else if |named| == 1 then Str(named[0].value)
    else Arr(seq(|named|, i requires 0 <= i < |named| => named[i].value))
  }

  /** The page and the filter bar read the same URL the same way: both take
      the first value, and both default to "" and 'all'. */
  lemma PageAgreesWithFilters(l: seq<Filters.Pair>)
    ensures Query(ParamOf(l, "query")) == Filters.InitialQuery(l)
    ensures GenreOf(ParamOf(l, "genre")) == Filters.InitialGenre(l)
  {
    Filters.FirstValueOfNamed(l, "query");
    Filters.FirstValueOfNamed(l, "genre");
  }
}
