/** The server action that saves a book: reading the submitted form
    (`s`, `n`), normalising and validating its fields, and choosing between
    creating and updating. The repository call that follows is in Repo. */
module Actions {
  import opened Wrappers
  import opened JsRuntime
  import opened Books
  import Repo

  /** One entry of a submitted form: text, or an uploaded file. */
  datatype FormEntry = Text(text: string) | File

  /** A submitted form: the first entry under each field name. */
  type FormData = map<string, FormEntry>

  /** formData.get(name): the entry, or null when the field was not submitted. */
  function Get(form: FormData, name: string): Option<FormEntry> {
    if name in form then Some(form[name]) else None
  }

  // ---------------------------------------------------------------------
  // s and n
  // ---------------------------------------------------------------------

  /** s: the trimmed text of a text entry, and "" for a file or a missing field. */
  function S(v: Option<FormEntry>): (r: string)
    ensures IsTrimmed(r)
    ensures v.Some? && v.value.Text? ==> r == Trim(v.value.text)
    ensures !(v.Some? && v.value.Text?) ==> r == ""
  {
    if v.Some? && v.value.Text? then Trim(v.value.text) else ""
  }

  /** Reading back what `s` produced gives the same text. */
  lemma SIsIdempotent(v: Option<FormEntry>)
    ensures S(Some(Text(S(v)))) == S(v)
  {
    if v.Some? && v.value.Text? {
      TrimIdempotent(v.value.text);
    }
  }

  /** n: null for an empty field and for text Number() does not read as a
      finite number; otherwise that number. */
  function N(v: Option<FormEntry>): (r: Option<int>)
    ensures S(v) == "" ==> r == None
    ensures r.Some? <==> S(v) != "" && StringToNumber(S(v)).Finite?
    ensures r.Some? ==> r.value == StringToNumber(S(v)).value
  {
    var str := S(v);
    if str == "" then None
    else match StringToNumber(str)
      case Finite(k) => Some(k)
      case _ => None
  }

  /** A numeral of an integer a double holds exactly, whatever white space
      surrounds it, reads back as its number (so "0" gives 0, not null). */
  lemma NOfNumeral(w1: string, k: int, w2: string)
    requires AllWhiteSpace(w1) && AllWhiteSpace(w2)
    requires -MaxExactInteger <= k <= MaxExactInteger
    ensures N(Some(Text(w1 + IntToString(k) + w2))) == Some(k)
  {
    var numeral := IntToString(k);
    TrimPadded(w1, numeral, w2);
    NumberOfIntToString(k);
    NOfFinite(w1 + numeral + w2, numeral, k);
  }

  /** A numeral too large for a double is Infinity to Number(), so n gives null. */
  lemma NOfHugeNumeral(w1: string, k: int, w2: string)
    requires AllWhiteSpace(w1) && AllWhiteSpace(w2)
    requires k >= DoubleOverflow
    ensures N(Some(Text(w1 + NatToDecimal(k) + w2))) == None
  {
    var numeral := NatToDecimal(k);
    NumberOfHugeNumeral(k);
    TrimPadded(w1, numeral, w2);
    NOfText(w1 + numeral + w2, numeral);
  }

  /** A field whose trimmed text Number() reads as the finite `k` gives `k`. */
  lemma NOfFinite(text: string, t: string, k: int)
    requires Trim(text) == t && t != "" && StringToNumber(t) == Finite(k)
    ensures N(Some(Text(text))) == Some(k)
  {
  }

  /** n reads the trimmed text `t` of a field with Number(). */
  lemma NOfText(text: string, t: string)
    requires Trim(text) == t && t != ""
    ensures N(Some(Text(text))) == if StringToNumber(t).Finite? then Some(StringToNumber(t).value) else None
  {
  }

  /** Infinity is a number to Number() but not a finite one, so n drops it. */
  lemma NDropsInfinity(sign: string)
    requires sign == "" || sign == "+" || sign == "-"
    ensures N(Some(Text(sign + "Infinity"))) == None
  {
    var t := sign + "Infinity";
    NumberOfInfinity(sign);
    TrimOfTrimmed(t);
    NOfText(t, t);
  }

  // ---------------------------------------------------------------------
  // saveBook's normalisation and dispatch
  // ---------------------------------------------------------------------

  const TitleRequired: string := "Título é obrigatório."
  const CreatedMessage: string := "Livro criado com sucesso."
  const UpdatedMessage: string := "Livro atualizado com sucesso."

  /** What saveBook does with a form before touching the repository. */
  datatype SaveRequest =
    | Rejected(message: string)
    | CreateRequest(data: BookData)
    | UpdateRequest(id: string, data: BookData)

  /** `s(v) || null`. */
  function TextOrNull(t: string): Field<string> {
    if t == "" then Null else Present(t)
  }

  /** `n(v) ?? undefined`. */
  function NumberOrAbsent(x: Option<int>): Field<int> {
    if x.Some? then Present(x.value) else Absent
  }

  /** The genre id: the sentinel "none" and the empty string mean null. */
  function GenreIdOf(raw: string): (g: Field<string>)
    ensures g.Null? <==> raw == "" || raw == "none"
    ensures !g.Null? ==> g == Present(raw)
  {
    if raw == "" || raw == "none" then Null else Present(raw)
  }

  /** A text column as saveBook writes it from a form field: null when the
      trimmed text is empty, the trimmed text otherwise. */
  predicate TextFrom(f: Field<string>, raw: Option<FormEntry>) {
    && (f.Null? <==> S(raw) == "")
    && (f.Present? ==> f.value == S(raw))
    && !f.Absent?
  }

  /** A number column as saveBook writes it: left out when n gave null, n's number otherwise. */
  predicate NumberFrom(f: Field<int>, raw: Option<FormEntry>) {
    && (f.Absent? <==> N(raw).None?)
    && (f.Present? ==> N(raw) == Some(f.value))
    && !f.Null?
  }

  /** The column saveBook writes from one text field. */
  function TextColumn(raw: Option<FormEntry>): (f: Field<string>)
    ensures TextFrom(f, raw)
  {
    TextOrNull(S(raw))
  }

  /** The column saveBook writes from one number field. */
  function NumberColumn(raw: Option<FormEntry>): (f: Field<int>)
    ensures NumberFrom(f, raw)
  {
    NumberOrAbsent(N(raw))
  }

  /** The data record saveBook hands to the repository. */
  function FormBookData(form: FormData): (d: BookData)
    ensures d.title == Some(S(Get(form, "title")))
    ensures TextFrom(d.author, Get(form, "author")) && TextFrom(d.cover, Get(form, "cover"))
    ensures TextFrom(d.synopsis, Get(form, "synopsis")) && TextFrom(d.status, Get(form, "status"))
    ensures TextFrom(d.isbn, Get(form, "isbn")) && TextFrom(d.notes, Get(form, "notes"))
    ensures NumberFrom(d.year, Get(form, "year")) && NumberFrom(d.pages, Get(form, "pages"))
    ensures NumberFrom(d.currentPage, Get(form, "currentPage")) && NumberFrom(d.rating, Get(form, "rating"))
    ensures d.genreId == GenreIdOf(S(Get(form, "genreId")))
  {
    BookData(
      title := Some(S(Get(form, "title"))),
      author := TextColumn(Get(form, "author")),
      cover := TextColumn(Get(form, "cover")),
      year := NumberColumn(Get(form, "year")),
      pages := NumberColumn(Get(form, "pages")),
      currentPage := NumberColumn(Get(form, "currentPage")),
      rating := NumberColumn(Get(form, "rating")),
      synopsis := TextColumn(Get(form, "synopsis")),
      isbn := TextColumn(Get(form, "isbn")),
      notes := TextColumn(Get(form, "notes")),
      status := TextColumn(Get(form, "status")),
      genreId := GenreIdOf(S(Get(form, "genreId"))))
  }

  /** saveBook up to the repository call: an empty title rejects the form;
      otherwise a non-empty id asks for an update of that book and its
      absence for a new one. */
  function Normalize(form: FormData): (r: SaveRequest)
    ensures r.Rejected? <==> S(Get(form, "title")) == ""
    ensures r.Rejected? ==> r.message == TitleRequired
    ensures r.UpdateRequest? <==> S(Get(form, "title")) != "" && S(Get(form, "id")) != ""
    ensures r.UpdateRequest? ==> r.id == S(Get(form, "id")) && r.id != ""
    ensures !r.Rejected? ==> r.data == FormBookData(form)
  {
    var id := S(Get(form, "id"));
    var title := S(Get(form, "title"));
    if title == "" then Rejected(TitleRequired)
    else if id != "" then UpdateRequest(id, FormBookData(form))
    else CreateRequest(FormBookData(form))
  }

  /** The message saveBook returns, which follows the branch taken. */
  function Message(r: SaveRequest): (m: string)
    ensures r.Rejected? ==> m == r.message
    ensures r.CreateRequest? ==> m == CreatedMessage
    ensures r.UpdateRequest? ==> m == UpdatedMessage
  {
    match r
    case Rejected(msg) => msg
    case CreateRequest(_) => CreatedMessage
    case UpdateRequest(_, _) => UpdatedMessage
  }

  /** A text field saveBook hands on is null or a non-empty trimmed text, never undefined. */
  predicate IsNormalizedText(f: Field<string>) {
    f.Null? || (f.Present? && f.value != "" && IsTrimmed(f.value))
  }

  /** What the normalisation guarantees about every accepted form. */
  lemma AcceptedDataIsNormalized(form: FormData)
    requires !Normalize(form).Rejected?
    ensures var d := Normalize(form).data;
      && d.title.Some? && d.title.value != "" && IsTrimmed(d.title.value)
      && IsNormalizedText(d.author) && IsNormalizedText(d.cover) && IsNormalizedText(d.synopsis)
      && IsNormalizedText(d.status) && IsNormalizedText(d.isbn) && IsNormalizedText(d.notes)
      && !d.year.Null? && !d.pages.Null? && !d.currentPage.Null? && !d.rating.Null?
      && !d.genreId.Absent? && d.genreId != Present("") && d.genreId != Present("none")
  {
  }

  /** Because saveBook always sends a genre id (null or a real id), an update
      from a form always connects or disconnects the genre; it never leaves it
      as it was. A form without a genre field clears the genre. */
  lemma FormUpdateAlwaysSetsGenre(form: FormData)
    requires Normalize(form).UpdateRequest?
    ensures !Repo.UpdateGenreEdge(Normalize(form).data.genreId).Unchanged?
    ensures "genreId" !in form ==> Repo.UpdateGenreEdge(Normalize(form).data.genreId) == Repo.Disconnect
  {
  }
}
