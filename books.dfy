/** The stored entities (Book, Genre) and the partial-update record the
    repository accepts. */
module Books {
  import opened Wrappers

  /** A named category. */
  datatype Genre = Genre(id: string, name: string)

  /** A stored book. Nullable columns are Options; `genreId` is the foreign
      key of the optional many-to-one genre relation. */
  datatype Book = Book(
    id: string,
    title: string,
    author: Option<string>,
    cover: Option<string>,
    year: Option<int>,
    pages: Option<int>,
    currentPage: Option<int>,
    rating: Option<int>,
    synopsis: Option<string>,
    isbn: Option<string>,
    notes: Option<string>,
    status: Option<string>,
    genreId: Option<string>,
    createdAt: int)

  /** A book together with its genre, as the repository returns it (`include: { genre: true }`). */
  datatype BookWithGenre = BookWithGenre(book: Book, genre: Option<Genre>)

  /** One property of a JavaScript object handed to the storage client:
      left out (undefined), explicitly null, or a value. */
  datatype Field<+T> = Absent | Null | Present(value: T)

  /** The field-by-field data `createBook` and `updateBook` accept. The title
      is never null here; the genre id keeps all three states. */
  datatype BookData = BookData(
    title: Option<string>,
    author: Field<string>,
    cover: Field<string>,
    year: Field<int>,
    pages: Field<int>,
    currentPage: Field<int>,
    rating: Field<int>,
    synopsis: Field<string>,
    isbn: Field<string>,
    notes: Field<string>,
    status: Field<string>,
    genreId: Field<string>)

  /** The result of writing a field onto a column holding `current`:
      undefined keeps it, null clears it, a value replaces it. */
  function Write<T>(current: Option<T>, f: Field<T>): (r: Option<T>)
    ensures f.Absent? ==> r == current
    ensures f.Null? ==> r == None
    ensures f.Present? ==> r == Some(f.value)
  {
    match f
    case Absent => current
    case Null => None
    case Present(v) => Some(v)
  }

  /** The image shown when a book has no cover. */
  const DefaultCover: string := "/bookoru-capa.jpeg"
}
