/** The values a book card derives from its book: reading progress, the
    cover image, the author line, the genre badge, the ghost strip that
    shows the rating, the progress bar condition and the links. */
module BookCard {
  import opened Wrappers
  import opened JsRuntime
  import opened Books
  import StatsPanel
  import Actions

  /** Reading progress: 0 unless both `pages` and `currentPage` are truthy,
      otherwise Math.round(currentPage / pages * 100), computed exactly. */
  function Progress(b: Book): (r: int)
    ensures !(IsTruthy(b.pages) && IsTruthy(b.currentPage)) ==> r == 0
    ensures IsTruthy(b.pages) && IsTruthy(b.currentPage) && b.pages.value > 0 ==>
      var p, c := b.pages.value, b.currentPage.value;
      2 * p * r - p <= 200 * c < 2 * p * r + p
  {
    if IsTruthy(b.pages) && IsTruthy(b.currentPage)
    then RoundQuotient(b.currentPage.value * 100, b.pages.value)
    else 0
  }

  /** The card rounds exactly as the statistics panel does: progress is pct
      of the current page over the page count, missing values taken as 0. */
  lemma ProgressIsPct(b: Book)
    ensures Progress(b) == StatsPanel.Pct(OrZero(b.currentPage), OrZero(b.pages))
  {
    if OrZero(b.pages) > 0 && OrZero(b.currentPage) == 0 {
      StatsPanel.PctOfNothing(OrZero(b.pages));
    } else if OrZero(b.pages) < 0 && OrZero(b.currentPage) == 0 {
      assert RoundQuotient(0, OrZero(b.pages)) == 0;
    }
  }

  /** A current page within the book gives a progress between 0 and 100. */
  lemma ProgressInRange(b: Book)
    requires 0 <= OrZero(b.currentPage) <= OrZero(b.pages)
    ensures 0 <= Progress(b) <= 100
  {
    ProgressIsPct(b);
    StatsPanel.PctInRange(OrZero(b.currentPage), OrZero(b.pages));
  }

  /** The bar under the card: shown only for a book being read (status
      exactly 'LENDO') with a positive progress. */
  predicate ProgressBarVisible(b: Book) {
    Progress(b) > 0 && b.status == Some("LENDO")
  }

  /** A visible bar means both counts are set, non-zero and of the same sign. */
  lemma VisibleBarHasCounts(b: Book)
    requires ProgressBarVisible(b)
    ensures IsTruthy(b.pages) && IsTruthy(b.currentPage) && b.status == Some("LENDO")
    ensures b.pages.value > 0 ==> b.currentPage.value > 0
  {
  }

  /** The image shown: the cover, or the default image when it is missing or empty. */
  function CoverSrc(b: Book): (src: string)
    ensures src != ""
    ensures b.cover.Some? && b.cover.value != "" ==> src == b.cover.value
    ensures b.cover.None? || b.cover == Some("") ==> src == DefaultCover
  {
    if b.cover.Some? && b.cover.value != "" then b.cover.value else DefaultCover
  }

  const UnknownAuthor: string := "Autor desconhecido"

  /** The author, or "Autor desconhecido" when it is missing or empty. */
  function AuthorText(b: Book): (a: string)
    ensures a != ""
    ensures b.author.Some? && b.author.value != "" ==> a == b.author.value
    ensures b.author.None? || b.author == Some("") ==> a == UnknownAuthor
  {
    if b.author.Some? && b.author.value != "" then b.author.value else UnknownAuthor
  }

  /** ", {year}" after the author when the year is truthy, nothing otherwise. */
  function YearSuffix(b: Book): (y: string)
    ensures y == "" <==> !IsTruthy(b.year)
    ensures y != "" ==> |y| > 2 && y[..2] == ", "
  {
    if IsTruthy(b.year) then ", " + IntToString(b.year.value) else ""
  }

  /** The author line of the card. */
  function AuthorLine(b: Book): (line: string)
    ensures line == AuthorText(b) + YearSuffix(b)
    ensures |line| > |AuthorText(b)| <==> IsTruthy(b.year)
  {
    AuthorText(b) + YearSuffix(b)
  }

  /** The year printed on the card is the year stored: read back by the
      form's number parser, the text after ", " gives that year. */
  lemma YearSuffixRoundTrip(b: Book)
    requires IsTruthy(b.year) && -MaxExactInteger <= b.year.value <= MaxExactInteger
    ensures Actions.N(Some(Actions.Text(YearSuffix(b)[2..]))) == b.year
  {
    var numeral := IntToString(b.year.value);
    assert YearSuffix(b)[2..] == numeral;
    assert [] + numeral + [] == numeral;
    Actions.NOfNumeral([], b.year.value, []);
  }

  /** The genre badge: the genre's name, shown only when the book has a genre with a non-empty name. */
  function GenreBadge(g: Option<Genre>): (badge: Option<string>)
    ensures badge.Some? <==> g.Some? && g.value.name != ""
    ensures badge.Some? ==> badge.value == g.value.name
  {
    if g.Some? && g.value.name != "" then Some(g.value.name) else None
  }

  // ---------------------------------------------------------------------
  // The ghost strip
  // ---------------------------------------------------------------------

  const Ghost: string := "\U{1F47B}"

  /** The rating strip: none for a missing or zero rating; otherwise
      `rating` lit ghosts and `5 - rating` faded ones. String.repeat throws
      a RangeError when either count is negative. */
  datatype Strip = NoStrip | Ghosts(lit: string, faded: string) | RangeError

  function GhostStrip(rating: Option<int>): (s: Strip)
    ensures !IsTruthy(rating) ==> s == NoStrip
    ensures IsTruthy(rating) && (rating.value < 0 || rating.value > 5) ==> s == RangeError
    ensures IsTruthy(rating) && 0 <= rating.value <= 5 ==>
      s.Ghosts? && |s.lit| == rating.value && |s.faded| == 5 - rating.value
  {
    if !IsTruthy(rating) then NoStrip
    else match (Repeat(Ghost, rating.value), Repeat(Ghost, 5 - OrZero(rating)))
      case (Some(lit), Some(faded)) => Ghosts(lit, faded)
      case _ => RangeError
  }

  /** For a rating from 1 to 5 the strip is always five ghosts, the first `rating` of them lit. */
  lemma StripHasFiveGhosts(r: int)
    requires 1 <= r <= 5
    ensures var s := GhostStrip(Some(r));
      && s.Ghosts?
      && s.lit == RepeatNat(Ghost, r) && s.faded == RepeatNat(Ghost, 5 - r)
      && s.lit + s.faded == RepeatNat(Ghost, 5)
  {
    RepeatAdd(Ghost, r, 5 - r);
  }

  // ---------------------------------------------------------------------
  // Links
  // ---------------------------------------------------------------------

  const BooksPrefix: string := "/books/"

  /** The link of the title and of the Visualizar item. */
  function ViewHref(id: string): (h: string)
    ensures |h| == |BooksPrefix| + |id| && h[..|BooksPrefix|] == BooksPrefix
  {
    BooksPrefix + id
  }

  /** The link of the Editar item: the book's page followed by "/edit". */
  function EditHref(id: string): (h: string)
    ensures h == ViewHref(id) + "/edit"
  {
    BooksPrefix + id + "/edit"
  }

  /** The id a "/books/{id}" path names. */
  function IdOfBookPath(path: string): Option<string> {
    if |path| >= |BooksPrefix| && path[..|BooksPrefix|] == BooksPrefix then Some(path[|BooksPrefix|..]) else None
  }

  /** The view link leads to the page of that very book. */
  lemma ViewHrefRoundTrip(id: string)
    ensures IdOfBookPath(ViewHref(id)) == Some(id)
  {
    assert (BooksPrefix + id)[|BooksPrefix|..] == id;
  }

  /** Different books have different links. */
  lemma HrefsDistinguishBooks(a: string, b: string)
    requires ViewHref(a) == ViewHref(b) || EditHref(a) == EditHref(b)
    ensures a == b
  {
    if EditHref(a) == EditHref(b) {
      assert ViewHref(a) == EditHref(a)[..|EditHref(a)| - 5];
      assert ViewHref(b) == EditHref(b)[..|EditHref(b)| - 5];
    }
    ViewHrefRoundTrip(a);
    ViewHrefRoundTrip(b);
  }
}
