/** The book repository: an in-memory table of books and genres standing in
    for the relational store, with the genre-edge rules of `createBook` and
    `updateBook` and the two listing orders. */
module Repo {
  import opened Wrappers
  import opened Books

  // ---------------------------------------------------------------------
  // The genre edge
  // ---------------------------------------------------------------------

  /** What a write does to the book-to-genre relation. */
  datatype GenreEdge = Connect(id: string) | Disconnect | Unchanged

  /** updateBook: connect a non-empty id, disconnect on null, and leave the
      relation alone when the id is undefined or the empty string. */
  function UpdateGenreEdge(genreId: Field<string>): (e: GenreEdge)
    ensures e.Connect? <==> genreId.Present? && genreId.value != ""
    ensures e.Connect? ==> e.id == genreId.value
    ensures e.Disconnect? <==> genreId.Null?
    ensures e.Unchanged? <==> genreId.Absent? || genreId == Present("")
  {
    if genreId.Present? && |genreId.value| > 0 then Connect(genreId.value)
    else if genreId.Null? then Disconnect
    else Unchanged
  }

  /** createBook: connect when the id is truthy (a non-empty string); otherwise
      the new book gets no genre. It never disconnects. */
  function CreateGenreEdge(genreId: Field<string>): (e: GenreEdge)
    ensures e.Connect? <==> genreId.Present? && genreId.value != ""
    ensures e.Connect? ==> e.id == genreId.value
    ensures !e.Disconnect?
  {
    if genreId.Present? && genreId.value != "" then Connect(genreId.value) else Unchanged
  }

  /** The genre reference after an edge is applied to a book whose reference is `current`. */
  function ApplyEdge(current: Option<string>, e: GenreEdge): (r: Option<string>)
    ensures e.Connect? ==> r == Some(e.id)
    ensures e.Disconnect? ==> r == None
    ensures e.Unchanged? ==> r == current
  {
    match e
    case Connect(id) => Some(id)
    case Disconnect => None
    case Unchanged => current
  }

  /** The two rules differ exactly on null: update disconnects, create does nothing. */
  lemma CreateAndUpdateRulesDifferOnlyOnNull(genreId: Field<string>)
    ensures CreateGenreEdge(genreId) == UpdateGenreEdge(genreId) <==> !genreId.Null?
  {
  }

  /** On a book that has no genre yet the two rules have the same effect. */
  lemma CreateRuleIsUpdateRuleOnFreshBook(genreId: Field<string>)
    ensures ApplyEdge(None, CreateGenreEdge(genreId)) == ApplyEdge(None, UpdateGenreEdge(genreId))
  {
  }

  // ---------------------------------------------------------------------
  // Building and updating a row
  // ---------------------------------------------------------------------

  /** Why the store refuses a write (the storage client throws in each case). */
  datatype RepoError =
    | RecordNotFound           // update or delete of an id that is not stored
    | GenreNotFound(id: string) // connect to a genre that does not exist
    | MissingTitle             // create without the required title

  /** The row `createBook` inserts: supplied columns set, the others empty. */
  function NewBook(id: string, createdAt: int, data: BookData): (b: Book)
    requires data.title.Some?
    ensures b.id == id && b.createdAt == createdAt && b.title == data.title.value
    ensures b.genreId == ApplyEdge(None, CreateGenreEdge(data.genreId))
    // a supplied value is stored; a left-out or null column starts empty
    ensures && (data.author.Present? ==> b.author == Some(data.author.value))
            && (data.cover.Present? ==> b.cover == Some(data.cover.value))
            && (data.year.Present? ==> b.year == Some(data.year.value))
            && (data.pages.Present? ==> b.pages == Some(data.pages.value))
            && (data.currentPage.Present? ==> b.currentPage == Some(data.currentPage.value))
            && (data.rating.Present? ==> b.rating == Some(data.rating.value))
            && (data.synopsis.Present? ==> b.synopsis == Some(data.synopsis.value))
            && (data.isbn.Present? ==> b.isbn == Some(data.isbn.value))
            && (data.notes.Present? ==> b.notes == Some(data.notes.value))
            && (data.status.Present? ==> b.status == Some(data.status.value))
    ensures && (!data.author.Present? ==> b.author == None) && (!data.cover.Present? ==> b.cover == None)
            && (!data.year.Present? ==> b.year == None) && (!data.pages.Present? ==> b.pages == None)
            && (!data.currentPage.Present? ==> b.currentPage == None)
            && (!data.rating.Present? ==> b.rating == None)
            && (!data.synopsis.Present? ==> b.synopsis == None) && (!data.isbn.Present? ==> b.isbn == None)
            && (!data.notes.Present? ==> b.notes == None) && (!data.status.Present? ==> b.status == None)
  {
    Book(id, data.title.value,
      Write(None, data.author), Write(None, data.cover), Write(None, data.year),
      Write(None, data.pages), Write(None, data.currentPage), Write(None, data.rating),
      Write(None, data.synopsis), Write(None, data.isbn), Write(None, data.notes),
      Write(None, data.status), ApplyEdge(None, CreateGenreEdge(data.genreId)), createdAt)
  }

  /** The row after `updateBook`: each supplied column is written, each absent
      one kept, and the genre follows the three-way rule. */
  function Updated(b: Book, data: BookData): (r: Book)
    ensures r.id == b.id && r.createdAt == b.createdAt
    ensures r.title == data.title.GetOr(b.title)
    ensures r.genreId == ApplyEdge(b.genreId, UpdateGenreEdge(data.genreId))
  {
    Book(b.id, data.title.GetOr(b.title),
      Write(b.author, data.author), Write(b.cover, data.cover), Write(b.year, data.year),
      Write(b.pages, data.pages), Write(b.currentPage, data.currentPage), Write(b.rating, data.rating),
      Write(b.synopsis, data.synopsis), Write(b.isbn, data.isbn), Write(b.notes, data.notes),
      Write(b.status, data.status), ApplyEdge(b.genreId, UpdateGenreEdge(data.genreId)), b.createdAt)
  }

  /** updateBook changes only what it is given: each column whose field is
      left out keeps its value, a null clears it and a value replaces it. */
  lemma UpdateChangesOnlySuppliedFields(b: Book, data: BookData)
    // left out: the column keeps its value
    ensures var r := Updated(b, data);
      && (data.author.Absent? ==> r.author == b.author) && (data.cover.Absent? ==> r.cover == b.cover)
      && (data.year.Absent? ==> r.year == b.year) && (data.pages.Absent? ==> r.pages == b.pages)
      && (data.currentPage.Absent? ==> r.currentPage == b.currentPage) && (data.rating.Absent? ==> r.rating == b.rating)
      && (data.synopsis.Absent? ==> r.synopsis == b.synopsis) && (data.isbn.Absent? ==> r.isbn == b.isbn)
      && (data.notes.Absent? ==> r.notes == b.notes) && (data.status.Absent? ==> r.status == b.status)
      && (data.genreId.Absent? ==> r.genreId == b.genreId) && (data.title.None? ==> r.title == b.title)
    // null: the column is cleared
    ensures var r := Updated(b, data);
      && (data.author.Null? ==> r.author == None) && (data.cover.Null? ==> r.cover == None)
      && (data.year.Null? ==> r.year == None) && (data.pages.Null? ==> r.pages == None)
      && (data.currentPage.Null? ==> r.currentPage == None) && (data.rating.Null? ==> r.rating == None)
      && (data.synopsis.Null? ==> r.synopsis == None) && (data.isbn.Null? ==> r.isbn == None)
      && (data.notes.Null? ==> r.notes == None) && (data.status.Null? ==> r.status == None)
      && (data.genreId.Null? ==> r.genreId == None)
    // a value: the column takes it; an empty genre id leaves the genre alone
    ensures var r := Updated(b, data);
      && (data.author.Present? ==> r.author == Some(data.author.value))
      && (data.cover.Present? ==> r.cover == Some(data.cover.value))
      && (data.year.Present? ==> r.year == Some(data.year.value))
      && (data.pages.Present? ==> r.pages == Some(data.pages.value))
      && (data.currentPage.Present? ==> r.currentPage == Some(data.currentPage.value))
      && (data.rating.Present? ==> r.rating == Some(data.rating.value))
      && (data.synopsis.Present? ==> r.synopsis == Some(data.synopsis.value))
      && (data.isbn.Present? ==> r.isbn == Some(data.isbn.value))
      && (data.notes.Present? ==> r.notes == Some(data.notes.value))
      && (data.status.Present? ==> r.status == Some(data.status.value))
      && (data.title.Some? ==> r.title == data.title.value)
      && (data.genreId == Present("") ==> r.genreId == b.genreId)
      && (data.genreId.Present? && data.genreId.value != "" ==> r.genreId == Some(data.genreId.value))
  {
  }

  /** A row with the given id, title and time and every other column empty. */
  function BlankBook(id: string, title: string, createdAt: int): Book {
    Book(id, title, None, None, None, None, None, None, None, None, None, None, None, createdAt)
  }

  /** Creating is updating a blank row: the created book is what `Updated`
      makes of a row with no columns, so each column of the submitted data is
      written by the same rule as on update. */
  lemma {:induction false} CreateIsUpdateOfBlank(id: string, createdAt: int, data: BookData)
    requires data.title.Some?
    ensures NewBook(id, createdAt, data) == Updated(BlankBook(id, data.title.value, createdAt), data)
  {
    CreateRuleIsUpdateRuleOnFreshBook(data.genreId);
  }

  /** Update data that supplies nothing. */
  const NoChanges: BookData := BookData(None, Absent, Absent, Absent, Absent, Absent, Absent,
                                        Absent, Absent, Absent, Absent, Absent)

  /** An update that supplies no field leaves the row as it was. */
  lemma UpdateWithNoChangesIsIdentity(b: Book)
    ensures Updated(b, NoChanges) == b
  {
  }

  /** Repeating an update changes nothing more. */
  lemma UpdateIsIdempotent(b: Book, data: BookData)
    ensures Updated(Updated(b, data), data) == Updated(b, data)
  {
  }

  // ---------------------------------------------------------------------
  // Orders
  // ---------------------------------------------------------------------

  /** Newest first: `createdAt` never increases along the listing. */
  predicate NewestFirst(s: seq<BookWithGenre>) {
    forall i :: 0 < i < |s| ==> s[i - 1].book.createdAt >= s[i].book.createdAt
  }

  /** Inserts `x` into a newest-first listing. */
  function InsertNewest(s: seq<BookWithGenre>, x: BookWithGenre): (r: seq<BookWithGenre>)
    requires NewestFirst(s)
    ensures NewestFirst(r)
    ensures |r| == |s| + 1
    ensures multiset(r) == multiset(s) + multiset{x}
    ensures r[0] == x || (s != [] && r[0] == s[0])
  {
    if s == [] || x.book.createdAt >= s[0].book.createdAt then [x] + s
    else
      assert s == [s[0]] + s[1..];
      [s[0]] + InsertNewest(s[1..], x)
  }

  /** Code-point lexicographic order on names: `a` sorts no later than `b`. */
  predicate LexLe(a: string, b: string) {
    a == [] || (b != [] && (a[0] < b[0] || (a[0] == b[0] && LexLe(a[1..], b[1..]))))
  }

  lemma {:induction false} LexLeReflexive(a: string)
    ensures LexLe(a, a)
  {
    if a != [] {
      LexLeReflexive(a[1..]);
    }
  }

  lemma {:induction false} LexLeTotal(a: string, b: string)
    ensures LexLe(a, b) || LexLe(b, a)
  {
    if a != [] && b != [] && a[0] == b[0] {
      LexLeTotal(a[1..], b[1..]);
    }
  }

  lemma {:induction false} LexLeTransitive(a: string, b: string, c: string)
    requires LexLe(a, b) && LexLe(b, c)
    ensures LexLe(a, c)
  {
    if a != [] && b != [] && c != [] && a[0] == b[0] == c[0] {
      LexLeTransitive(a[1..], b[1..], c[1..]);
    }
  }

  /** Ascending by name. */
  predicate ByName(s: seq<Genre>) {
    forall i :: 0 < i < |s| ==> LexLe(s[i - 1].name, s[i].name)
  }

  /** A listing ascending by name is ordered between any two positions, not only neighbours. */
  lemma {:induction false} ByNamePairwise(s: seq<Genre>, i: nat, j: nat)
    requires ByName(s) && i <= j < |s|
    ensures LexLe(s[i].name, s[j].name)
    decreases j - i
  {
    if i == j {
      LexLeReflexive(s[i].name);
    } else {
      ByNamePairwise(s, i, j - 1);
      LexLeTransitive(s[i].name, s[j - 1].name, s[j].name);
    }
  }

  /** Inserts `g` into a listing sorted by name. */
  function InsertByName(s: seq<Genre>, g: Genre): (r: seq<Genre>)
    requires ByName(s)
    ensures ByName(r)
    ensures |r| == |s| + 1
    ensures multiset(r) == multiset(s) + multiset{g}
    ensures r[0] == g || (s != [] && r[0] == s[0])
  {
    if s == [] || LexLe(g.name, s[0].name) then [g] + s
    else
      LexLeTotal(g.name, s[0].name);
      assert s == [s[0]] + s[1..];
      [s[0]] + InsertByName(s[1..], g)
  }

  // ---------------------------------------------------------------------
  // The library
  // ---------------------------------------------------------------------

  /** The store: books and genres keyed by id. */
  class Library {
    var books: map<string, Book>
    var genres: map<string, Genre>

    /** Keys match the rows' ids, and every genre reference points to a stored genre. */
    ghost predicate Valid()
      reads this
    {
      && (forall id | id in books :: books[id].id == id && (books[id].genreId.Some? ==> books[id].genreId.value in genres))
      && (forall id | id in genres :: genres[id].id == id)
    }

    /** A store holding the given genres and no books. */
    constructor (initialGenres: map<string, Genre>)
      requires forall id | id in initialGenres :: initialGenres[id].id == id
      ensures Valid()
      ensures books == map[] && genres == initialGenres
    {
      books := map[];
      genres := initialGenres;
    }

    /** A row with its genre attached. */
    function WithGenre(b: Book): (r: BookWithGenre)
      reads this
      ensures r.book == b
      ensures r.genre.Some? <==> b.genreId.Some? && b.genreId.value in genres
      ensures r.genre.Some? ==> r.genre.value == genres[b.genreId.value]
    {
      BookWithGenre(b, if b.genreId.Some? && b.genreId.value in genres then Some(genres[b.genreId.value]) else None)
    }

    /** Every stored book with its genre. */
    ghost function AllBooks(): set<BookWithGenre>
      reads this
    {
      set id | id in books :: WithGenre(books[id])
    }

    /** listBooks: every stored book exactly once, with its genre, newest first. */
    method ListBooks() returns (r: seq<BookWithGenre>)
      requires Valid()
      ensures NewestFirst(r)
      ensures multiset(r) == multiset(AllBooks())
    {
      r := [];
      var todo := books.Keys;
      while todo != {}
        invariant todo <= books.Keys
        invariant NewestFirst(r)
        invariant multiset(r) == multiset(set id | id in books.Keys - todo :: WithGenre(books[id]))
        decreases todo
      {
        var id :| id in todo;
        ghost var listed := set d | d in books.Keys - todo :: WithGenre(books[d]);
        assert WithGenre(books[id]) !in listed;
        assert (set d | d in books.Keys - (todo - {id}) :: WithGenre(books[d])) == listed + {WithGenre(books[id])};
        r := InsertNewest(r, WithGenre(books[id]));
        todo := todo - {id};
      }
      assert books.Keys - todo == books.Keys;
    }

    /** getBook: the book with that id and its genre, or None when no book has it. */
    function GetBook(id: string): (r: Option<BookWithGenre>)
      reads this
      requires Valid()
      ensures r.Some? <==> id in books
      ensures r.Some? ==> r.value.book == books[id]
      ensures r.Some? ==> (r.value.genre.Some? <==> books[id].genreId.Some?)
      ensures r.Some? && r.value.genre.Some? ==> r.value.genre.value == genres[books[id].genreId.value]
    {
      if id in books then Some(WithGenre(books[id])) else None
    }

    /** listGenres: every stored genre exactly once, ascending by name. */
    method ListGenres() returns (r: seq<Genre>)
      requires Valid()
      ensures ByName(r)
      ensures multiset(r) == multiset(genres.Values)
    {
      r := [];
      var todo := genres.Keys;
      while todo != {}
        invariant todo <= genres.Keys
        invariant ByName(r)
        invariant multiset(r) == multiset(set id | id in genres.Keys - todo :: genres[id])
        decreases todo
      {
        var id :| id in todo;
        ghost var listed := set d | d in genres.Keys - todo :: genres[d];
        assert genres[id] !in listed;
        assert (set d | d in genres.Keys - (todo - {id}) :: genres[d]) == listed + {genres[id]};
        r := InsertByName(r, genres[id]);
        todo := todo - {id};
      }
      assert (set d | d in genres.Keys - todo :: genres[d]) == genres.Values;
    }

    /** Whether the edge connects to a genre that is not stored. */
    predicate ConnectsMissingGenre(e: GenreEdge)
      reads this
    {
      e.Connect? && e.id !in genres
    }

    /** createBook with the id the store draws for the new row and the clock's time. */
    method CreateBook(id: string, createdAt: int, data: BookData) returns (r: Result<BookWithGenre, RepoError>)
      requires Valid()
      requires id !in books
      modifies this
      ensures Valid() && genres == old(genres)
      ensures r == if data.title.None? then Failure(MissingTitle)
                   else if ConnectsMissingGenre(CreateGenreEdge(data.genreId)) then Failure(GenreNotFound(data.genreId.value))
                   else Success(WithGenre(NewBook(id, createdAt, data)))
      ensures books == if r.Success? then old(books)[id := NewBook(id, createdAt, data)] else old(books)
    {
      if data.title.None? {
        return Failure(MissingTitle);
      }
      var edge := CreateGenreEdge(data.genreId);
      if ConnectsMissingGenre(edge) {
        return Failure(GenreNotFound(edge.id));
      }
      var b := NewBook(id, createdAt, data);
      books := books[id := b];
      r := Success(WithGenre(b));
    }

    /** updateBook: writes the supplied fields of the row with that id; all other rows stay as they were. */
    method UpdateBook(id: string, data: BookData) returns (r: Result<BookWithGenre, RepoError>)
      requires Valid()
      modifies this
      ensures Valid() && genres == old(genres)
      ensures r == if id !in old(books) then Failure(RecordNotFound)
                   else if ConnectsMissingGenre(UpdateGenreEdge(data.genreId)) then Failure(GenreNotFound(data.genreId.value))
                   else Success(WithGenre(Updated(old(books)[id], data)))
      ensures books == if r.Success? then old(books)[id := Updated(old(books)[id], data)] else old(books)
    {
      if id !in books {
        return Failure(RecordNotFound);
      }
      var edge := UpdateGenreEdge(data.genreId);
      if ConnectsMissingGenre(edge) {
        return Failure(GenreNotFound(edge.id));
      }
      var b := Updated(books[id], data);
      books := books[id := b];
      r := Success(WithGenre(b));
    }

    /** deleteBook: removes exactly that row; an id that is not stored is an error. */
    method DeleteBook(id: string) returns (r: Outcome<RepoError>)
      requires Valid()
      modifies this
      ensures Valid() && genres == old(genres)
      ensures r == if id in old(books) then Pass else Fail(RecordNotFound)
      ensures books == old(books) - {id}
    {
      if id !in books {
        return Fail(RecordNotFound);
      }
      books := books - {id};
      r := Pass;
    }
  }
}
