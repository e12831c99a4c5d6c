/** The five books the seed script stores, and the figures the statistics
    panel and the cards show for them. Synopses are omitted; the creation
    times are distinct placeholders, since the storage sets them. */
module Fixture {
  import opened Wrappers
  import opened Books
  import StatsPanel
  import BookCard
  import JsRuntime

  function SeedBook(id: string, title: string, author: string, year: int, pages: int,
                    currentPage: int, rating: int, status: string, genre: Genre, createdAt: int): BookWithGenre
  {
    BookWithGenre(
      Book(id, title, Some(author), Some(DefaultCover), Some(year), Some(pages), Some(currentPage),
           Some(rating), None, None, None, Some(status), Some(genre.id), createdAt),
      Some(genre))
  }

  const Guia := SeedBook("guia", "O Guia do Mochileiro das Galáxias", "Douglas Adams", 1979, 208, 50, 4,
                         "LENDO", Genre("ficcao", "Ficção Científica"), 0)
  const CemAnos := SeedBook("cem-anos", "Cem Anos de Solidão", "Gabriel García Márquez", 1967, 417, 417, 5,
                            "LIDO", Genre("realismo", "Realismo Mágico"), 1)
  const NomeDoVento := SeedBook("nome-do-vento", "O Nome do Vento", "Patrick Rothfuss", 2007, 656, 0, 0,
                                "QUERO_LER", Genre("fantasia", "Fantasia"), 2)
  const Revolucao := SeedBook("revolucao", "A Revolução do Software", "Steve McConnell", 2004, 960, 0, 0,
                              "PAUSADO", Genre("tecnologia", "Tecnologia"), 3)
  const Pilar := SeedBook("pilar", "Pilar de Fogo", "Ken Follett", 2017, 900, 150, 3,
                          "LENDO", Genre("romance", "Romance Histórico"), 4)

  const Seed: seq<BookWithGenre> := [Guia, CemAnos, NomeDoVento, Revolucao, Pilar]

  lemma SumOfSeed(m: StatsPanel.Measure)
    ensures StatsPanel.Sum(Seed, m) == StatsPanel.Value(m, Guia) + StatsPanel.Value(m, CemAnos)
      + StatsPanel.Value(m, NomeDoVento) + StatsPanel.Value(m, Revolucao) + StatsPanel.Value(m, Pilar)
  {
    var s1, s2, s3, s4 := Seed[1..], Seed[2..], Seed[3..], Seed[4..];
    assert s1[1..] == s2 && s2[1..] == s3 && s3[1..] == s4 && s4[1..] == [];
    assert StatsPanel.Sum(s4, m) == StatsPanel.Value(m, Pilar);
    assert StatsPanel.Sum(s3, m) == StatsPanel.Value(m, Revolucao) + StatsPanel.Sum(s4, m);
    assert StatsPanel.Sum(s2, m) == StatsPanel.Value(m, NomeDoVento) + StatsPanel.Sum(s3, m);
    assert StatsPanel.Sum(s1, m) == StatsPanel.Value(m, CemAnos) + StatsPanel.Sum(s2, m);
  }

  /** A status without lower-case letters is its own key. */
  lemma KeyIs(b: BookWithGenre, s: string)
    requires b.book.status == Some(s)
    requires forall i :: 0 <= i < |s| ==> !('a' <= s[i] <= 'z')
    ensures StatsPanel.StatusKey(b) == s
  {
    JsRuntime.ToUpperCaseOfUpper(s);
  }

  /** A key's length is its status's length, so a status of another length has another key. */
  lemma KeyIsNot(b: BookWithGenre, s: string, other: string)
    requires b.book.status == Some(s) && |s| != |other|
    ensures StatsPanel.StatusKey(b) != other
  {
  }

  lemma ReadingKeys()
    ensures StatsPanel.StatusKey(Guia) == "LENDO" && StatsPanel.StatusKey(Pilar) == "LENDO"
  {
    KeyIs(Guia, "LENDO");
    KeyIs(Pilar, "LENDO");
  }

  lemma OtherKeys()
    ensures StatsPanel.StatusKey(NomeDoVento) != "LENDO" && StatsPanel.StatusKey(NomeDoVento) != "LIDO"
    ensures StatsPanel.StatusKey(Revolucao) != "LENDO" && StatsPanel.StatusKey(Revolucao) != "LIDO"
  {
    KeyIsNot(NomeDoVento, "QUERO_LER", "LENDO");
    KeyIsNot(NomeDoVento, "QUERO_LER", "LIDO");
    KeyIsNot(Revolucao, "PAUSADO", "LENDO");
    KeyIsNot(Revolucao, "PAUSADO", "LIDO");
  }

  lemma SeedStatusKeys()
    ensures StatsPanel.StatusKey(Guia) == "LENDO" && StatsPanel.StatusKey(Pilar) == "LENDO"
    ensures StatsPanel.StatusKey(CemAnos) == "LIDO"
    ensures StatsPanel.StatusKey(NomeDoVento) != "LENDO" && StatsPanel.StatusKey(NomeDoVento) != "LIDO"
    ensures StatsPanel.StatusKey(Revolucao) != "LENDO" && StatsPanel.StatusKey(Revolucao) != "LIDO"
  {
    ReadingKeys();
    KeyIs(CemAnos, "LIDO");
    OtherKeys();
  }

  lemma SeedCounts()
    ensures StatsPanel.ByStatus(Seed, "LENDO") == 2 && StatsPanel.ByStatus(Seed, "LIDO") == 1
  {
    SeedStatusKeys();
    SumOfSeed(StatsPanel.CountOf("LENDO"));
    SumOfSeed(StatsPanel.CountOf("LIDO"));
  }

  lemma SeedPages()
    ensures StatsPanel.TotalPages(Seed) == 3141 && StatsPanel.TotalRead(Seed) == 617
  {
    SumOfSeed(StatsPanel.Pages);
    SumOfSeed(StatsPanel.PagesRead);
  }

  /** The panel for the seed data: 5 books, 2 being read, 1 read, 617 of
      3141 pages read, shown as 20%. */
  lemma SeedPanel()
    ensures StatsPanel.Panel(Seed) == StatsPanel.Stats(5, 2, 1, 3141, 617, 20)
  {
    SeedCounts();
    SeedPages();
    assert StatsPanel.Pct(617, 3141) == 20;
  }

  /** The cards of the seed data: the books being read show 24% and 17%;
      the unrated books show no ghost strip. */
  lemma SeedCards()
    ensures BookCard.Progress(Guia.book) == 24 && BookCard.ProgressBarVisible(Guia.book)
    ensures BookCard.Progress(Pilar.book) == 17 && BookCard.ProgressBarVisible(Pilar.book)
    ensures BookCard.Progress(NomeDoVento.book) == 0
    ensures BookCard.GhostStrip(NomeDoVento.book.rating) == BookCard.NoStrip
    ensures BookCard.AuthorLine(Guia.book) == "Douglas Adams, 1979"
  {
    assert JsRuntime.IntToString(1979) == "1979";
  }
}
