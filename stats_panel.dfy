/** The statistics panel of the home page: how many books there are, how
    many are being read and have been read, how many pages the library holds
    and how many of them were read, and that last figure as a rounded
    percentage. */
module StatsPanel {
  import opened Wrappers
  import opened JsRuntime
  import opened Books

  /** pct: 0 for a zero denominator, otherwise Math.round(n / d * 100),
      that is n*100/d rounded to the nearest integer with halves rounded up. */
  function Pct(n: int, d: int): (r: int)
    ensures d == 0 ==> r == 0
    ensures d > 0 ==> 2 * d * r - d <= 200 * n < 2 * d * r + d
    ensures d < 0 ==> 2 * d * r + d < 200 * n <= 2 * d * r - d
  {
    if d == 0 then 0 else RoundQuotient(n * 100, d)
  }

  /** The sign of a product with a positive factor is the sign of the other factor. */
  lemma {:induction false} ProductSign(d: int, x: int)
    requires d > 0
    ensures x <= 0 ==> d * x <= 0
    ensures x > 0 ==> d * x > 0
    decreases if x > 0 then x else -x
  {
    if x > 0 {
      ProductSign(d, x - 1);
      assert d * x == d * (x - 1) + d;
    } else if x < 0 {
      ProductSign(d, x + 1);
      assert d * x == d * (x + 1) - d;
    }
  }

  /** A share of a whole is a percentage between 0 and 100. */
  lemma PctInRange(n: int, d: int)
    requires 0 <= n <= d
    ensures 0 <= Pct(n, d) <= 100
  {
    if d > 0 {
      var r := Pct(n, d);
      assert d * (2 * r + 1) == 2 * d * r + d;
      ProductSign(d, 2 * r + 1);
      assert d * (2 * r - 201) == 2 * d * r - d - 200 * d;
      ProductSign(d, 2 * r - 201);
    }
  }

  /** Nothing out of something is 0%. */
  lemma PctOfNothing(d: int)
    requires d > 0
    ensures Pct(0, d) == 0
  {
    var z := Pct(0, d);
    assert d * (2 * z - 1) == 2 * d * z - d;
    ProductSign(d, 2 * z - 1);
    assert d * (2 * z + 1) == 2 * d * z + d;
    ProductSign(d, 2 * z + 1);
  }

  /** All of something is 100%. */
  lemma PctOfWhole(d: int)
    requires d > 0
    ensures Pct(d, d) == 100
  {
    var r := Pct(d, d);
    assert d * (2 * r - 201) == 2 * d * r - d - 200 * d;
    ProductSign(d, 2 * r - 201);
    assert d * (2 * r - 199) == 2 * d * r + d - 200 * d;
    ProductSign(d, 2 * r - 199);
  }

  // ---------------------------------------------------------------------
  // Counts and sums over the list of books
  // ---------------------------------------------------------------------

  /** `(b.status || "").toUpperCase()`. */
  function StatusKey(b: BookWithGenre): (k: string)
    ensures b.book.status.None? ==> k == ""
    ensures b.book.status.Some? ==> |k| == |b.book.status.value|
    ensures b.book.status.Some? ==> forall i :: 0 <= i < |k| ==> k[i] == UpperChar(b.book.status.value[i])
  {
    ToUpperCase(if b.book.status.Some? then b.book.status.value else "")
  }

  /** What a fold over the books adds for one book. */
  datatype Measure =
    | CountOf(status: string)  // 1 when the upper-cased status matches
    | Pages                    // `pages || 0`
    | PagesRead                // `pages || 0` for a LIDO book, `currentPage || 0` for any other

  function Value(m: Measure, b: BookWithGenre): int {
    match m
    case CountOf(s) => if StatusKey(b) == s then 1 else 0
    case Pages => OrZero(b.book.pages)
    case PagesRead => if b.book.status == Some("LIDO") then OrZero(b.book.pages) else OrZero(b.book.currentPage)
  }

  /** The fold `books.reduce((acc, b) => acc + value(b), 0)`. */
  function Sum(books: seq<BookWithGenre>, m: Measure): int {
    if books == [] then 0 else Value(m, books[0]) + Sum(books[1..], m)
  }

  lemma {:induction false} SumOfConcat(a: seq<BookWithGenre>, b: seq<BookWithGenre>, m: Measure)
    ensures Sum(a + b, m) == Sum(a, m) + Sum(b, m)
  {
    if a == [] {
      assert a + b == b;
    } else {
      assert (a + b)[1..] == a[1..] + b;
      SumOfConcat(a[1..], b, m);
    }
  }

  /** Taking the book at position `i` out of the list takes its value out of the fold. */
  lemma SumWithout(b: seq<BookWithGenre>, i: nat, m: Measure)
    requires i < |b|
    ensures Sum(b, m) == Value(m, b[i]) + Sum(b[..i] + b[i + 1..], m)
  {
    assert b == (b[..i] + [b[i]]) + b[i + 1..];
    SumOfConcat(b[..i] + [b[i]], b[i + 1..], m);
    SumOfConcat(b[..i], [b[i]], m);
    SumOfConcat(b[..i], b[i + 1..], m);
  }

  lemma MultisetWithout(b: seq<BookWithGenre>, i: nat)
    requires i < |b|
    ensures multiset(b[..i] + b[i + 1..]) == multiset(b) - multiset{b[i]}
  {
    assert b == b[..i] + [b[i]] + b[i + 1..];
    assert multiset(b) == multiset(b[..i]) + multiset{b[i]} + multiset(b[i + 1..]);
  }

  lemma PositionOf(b: seq<BookWithGenre>, x: BookWithGenre) returns (i: nat)
    requires x in multiset(b)
    ensures i < |b| && b[i] == x
  {
    assert x in b;
    i :| 0 <= i < |b| && b[i] == x;
  }

  /** Taking the first book of `a` and the same book out of `b` keeps the multisets equal. */
  lemma RestsAgree(a: seq<BookWithGenre>, b: seq<BookWithGenre>, i: nat)
    requires multiset(a) == multiset(b) && a != [] && i < |b| && b[i] == a[0]
    ensures multiset(a[1..]) == multiset(b[..i] + b[i + 1..])
  {
    MultisetWithout(b, i);
    assert a == [a[0]] + a[1..];
    assert multiset(a) == multiset{a[0]} + multiset(a[1..]);
  }

  /** A fold gives the same total whatever the order of the books. */
  lemma {:induction false} SumIgnoresOrder(a: seq<BookWithGenre>, b: seq<BookWithGenre>, m: Measure)
    requires multiset(a) == multiset(b)
    ensures Sum(a, m) == Sum(b, m)
  {
    if a != [] {
      var i := PositionOf(b, a[0]);
      RestsAgree(a, b, i);
      SumIgnoresOrder(a[1..], b[..i] + b[i + 1..], m);
      SumWithout(b, i, m);
    }
  }

  /** Each count lies between 0 and the number of books. */
  lemma {:induction false} CountWithinTotal(books: seq<BookWithGenre>, s: string)
    ensures 0 <= Sum(books, CountOf(s)) <= |books|
  {
    if books != [] {
      CountWithinTotal(books[1..], s);
    }
  }

  /** byStatus(s): the number of books whose upper-cased status is `s`. */
  function ByStatus(books: seq<BookWithGenre>, s: string): (r: nat)
    ensures r <= |books|
    ensures r == 0 <==> forall i :: 0 <= i < |books| ==> StatusKey(books[i]) != s
  {
    CountWithinTotal(books, s);
    CountIsZero(books, s);
    Sum(books, CountOf(s))
  }

  lemma {:induction false} CountIsZero(books: seq<BookWithGenre>, s: string)
    ensures Sum(books, CountOf(s)) == 0 <==> forall i :: 0 <= i < |books| ==> StatusKey(books[i]) != s
  {
    if books != [] {
      CountIsZero(books[1..], s);
      CountWithinTotal(books[1..], s);
      assert forall i :: 1 <= i < |books| ==> books[i] == books[1..][i - 1];
    }
  }

  /** No book has two statuses, so counts for different statuses add up to at most the total. */
  lemma {:induction false} TwoCountsWithinTotal(books: seq<BookWithGenre>, s1: string, s2: string)
    requires s1 != s2
    ensures ByStatus(books, s1) + ByStatus(books, s2) <= |books|
  {
    if books != [] {
      TwoCountsWithinTotal(books[1..], s1, s2);
    }
  }

  /** totalPaginas: the pages of all books, a missing count taken as 0. */
  function TotalPages(books: seq<BookWithGenre>): int {
    Sum(books, Pages)
  }

  /** totalLidas: the full page count of each LIDO book and the current page of every other. */
  function TotalRead(books: seq<BookWithGenre>): int {
    Sum(books, PagesRead)
  }

  /** A book whose recorded progress makes sense: no negative counts and the current page within the book. */
  predicate ConsistentProgress(b: BookWithGenre) {
    0 <= OrZero(b.book.currentPage) <= OrZero(b.book.pages)
  }

  /** With consistent progress the library cannot have read more pages than it holds. */
  lemma {:induction false} ReadWithinPages(books: seq<BookWithGenre>)
    requires forall i :: 0 <= i < |books| ==> ConsistentProgress(books[i])
    ensures 0 <= TotalRead(books) <= TotalPages(books)
  {
    if books != [] {
      assert ConsistentProgress(books[0]);
      assert forall i :: 0 <= i < |books[1..]| ==> books[1..][i] == books[i + 1];
      ReadWithinPages(books[1..]);
    }
  }

  // ---------------------------------------------------------------------
  // The panel
  // ---------------------------------------------------------------------

  /** The figures the panel shows: the cards Total de Livros, Lendo, Lidos
      and Páginas Lidas, with the percentage hint under the last. */
  datatype Stats = Stats(total: nat, lendo: nat, lido: nat, totalPaginas: int, totalLidas: int, percentRead: int)

  function Panel(books: seq<BookWithGenre>): (p: Stats)
    ensures p.total == |books|
    ensures p.lendo + p.lido <= p.total
    ensures p.lendo == ByStatus(books, "LENDO") && p.lido == ByStatus(books, "LIDO")
    ensures p.totalPaginas == 0 ==> p.percentRead == 0
  {
    TwoCountsWithinTotal(books, "LENDO", "LIDO");
    Stats(|books|, ByStatus(books, "LENDO"), ByStatus(books, "LIDO"),
          TotalPages(books), TotalRead(books), Pct(TotalRead(books), TotalPages(books)))
  }

  /** With consistent progress the hint is a percentage between 0 and 100. */
  lemma PercentReadInRange(books: seq<BookWithGenre>)
    requires forall i :: 0 <= i < |books| ==> ConsistentProgress(books[i])
    ensures 0 <= Panel(books).percentRead <= 100
  {
    ReadWithinPages(books);
    PctInRange(TotalRead(books), TotalPages(books));
  }

  /** The panel does not depend on the order in which the books are listed. */
  lemma PanelIgnoresOrder(a: seq<BookWithGenre>, b: seq<BookWithGenre>)
    requires multiset(a) == multiset(b)
    ensures Panel(a) == Panel(b)
  {
    assert |a| == |multiset(a)| == |multiset(b)| == |b|;
    SumIgnoresOrder(a, b, CountOf("LENDO"));
    SumIgnoresOrder(a, b, CountOf("LIDO"));
    SumIgnoresOrder(a, b, Pages);
    SumIgnoresOrder(a, b, PagesRead);
  }
}
