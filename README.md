# boo-ko-ru book tracker: a verified Dafny model

boo-ko-ru is a personal library tracker. A user records books with their
reading status, progress, ghost rating (0 to 5 "fantasmas") and genre, then
browses them on a home page with a statistics panel and a filter bar.

This project models the parts of the application that hold logic, and proves
what each part promises:

- `saveBook` (server action): how it reads a submitted form (`s` trims text,
  `n` reads numbers with `Number()`), normalises the fields and chooses
  between creating and updating (module `Actions`).
- The book repository, as an in-memory table (class `Repo.Library`):
  - listing newest first and getting one book, each with its genre;
  - listing genres by name;
  - creating, partially updating and deleting books;
  - the create and update rules for the genre relation (connect,
    disconnect or leave unchanged).
- The home page's search parameters:
  - `query` and `genre` normalised from a string, an array or nothing
    (module `Page`);
  - the filter bar's `createQueryString`, over a URLSearchParams pair list
    with `delete` and `set` as section 6.2 of the WHATWG URL Standard defines
    them (module `Filters`).
- Derived displays:
  - the statistics panel: counts by status, page sums and the rounded
    percentage (module `StatsPanel`);
  - a book card's progress, fallbacks, ghost strip and links (module
    `BookCard`).
- The two rating widgets as small state machines: `RatingInput` (click to
  toggle, hover) and `GhostRating` (hover or value, labels, click reports).
- The five books of the seed script, and the figures the panel and the
  cards show for them (module `Fixture`).

Supporting modules:

- `Wrappers`: Option, Result and Outcome.
- `JsRuntime`: the JavaScript behaviour the code relies on:
  - `trim` with the ECMAScript white-space set;
  - `toUpperCase` and `repeat`;
  - `String(n)` for integers;
  - `Number(s)` for integer literals;
  - `Math.round` of a quotient, computed exactly;
  - `x || 0`.
- `Books`: the stored records, and the three-state field (left out, null,
  or a value) that partial updates take.

Clocks and id generation are parameters of `Repo.Library.CreateBook`.
Rendering, routing and storage I/O are not modelled (see "Left out").

What the code does, and does not do:

- saveBook validates only the title. There is no year range, no page
  bound, no rating clamp and no closed set of statuses.
- listBooks takes no filter, so the page's `query` and `genreId` reach
  nothing (src/app/page.tsx:40 passes them, src/lib/repo.ts:23 takes none).
- The cover placeholder is never applied when a book is saved. The card
  (modelled by `BookCard.CoverSrc`), the book page and the form preview each
  apply it on display.
- On update, an empty genre id leaves the relation unchanged
  (`Repo.UpdateGenreEdge`).

## Model

| member | source | states |
|---|---|---|
| JsRuntime.Trim | src/app/actions.ts:8 | trim yields a slice of the input with white space only before and after it, and neither end of the result is white space |
| JsRuntime.TrimPadded | src/app/actions.ts:8 | trimming a trimmed text padded with any white space gives back exactly that text |
| JsRuntime.TrimIdempotent | src/app/actions.ts:7-9 | trimming twice equals trimming once |
| JsRuntime.ToUpperCase | src/components/StatsPanel.tsx:16 | upper-casing keeps the length and maps each character through the ASCII letter mapping |
| JsRuntime.Repeat | src/components/BookCard.tsx:93-98 | repeat throws (None) exactly for a negative count; otherwise it gives count copies of s: count times its length in characters, starting with s and repeating with the length of s as period |
| JsRuntime.RepeatAdd | src/components/BookCard.tsx:93-98 | a copies followed by b copies are a+b copies |
| JsRuntime.IntToString | src/components/RatingInput.tsx:20 | String(k) is a non-empty, trimmed numeral: digits, a leading '-' exactly for negatives, and no leading zero before the digits of a non-zero k (after the '-' as well) |
| JsRuntime.IntToStringInjective | src/components/GhostRating.tsx:43 | different integers print differently |
| JsRuntime.StringToNumber | src/app/actions.ts:13 | Number() of a text that trims to nothing is 0 |
| JsRuntime.ToDouble | src/app/actions.ts:13 | an integer literal's value is exact up to 2^53 in magnitude and Infinity from the overflow threshold 2^1024 - 2^970 on; never NaN |
| JsRuntime.NumberOfIntToString | src/app/actions.ts:13 | Number(String(k)) == k for every integer of magnitude up to 2^53 |
| JsRuntime.NumberOfHugeNumeral | src/app/actions.ts:13 | a numeral at or above the overflow threshold is Infinity to Number() |
| JsRuntime.NumberOfInfinity | src/app/actions.ts:13-14 | Number() reads "Infinity", "+Infinity" and "-Infinity" as infinite, not finite |
| JsRuntime.RoundQuotient | src/components/StatsPanel.tsx:9 | Math.round(p/q) is the integer r with r - 1/2 <= p/q < r + 1/2 (halves round up) |
| Books.Write | src/lib/repo.ts:76 | writing a field: left out keeps the column, null clears it, a value replaces it |
| Actions.S | src/app/actions.ts:7-9 | s is the trimmed text of a text entry and "" for a file or a missing field; the result is always trimmed |
| Actions.SIsIdempotent | src/app/actions.ts:7-9 | applying s to what s produced changes nothing |
| Actions.N | src/app/actions.ts:10-15 | n is null for an empty trimmed text and whenever Number() is not finite; otherwise it is Number()'s value |
| Actions.NOfText | src/app/actions.ts:10-15 | n reads a non-empty trimmed text with Number() |
| Actions.NOfNumeral | src/app/actions.ts:10-15 | the numeral of an integer of magnitude up to 2^53, with any white space around it, reads back as that number, so "0" gives 0 and not null |
| Actions.NOfHugeNumeral | src/app/actions.ts:13-14 | a numeral beyond the double range, with any white space around it, gives null |
| Actions.NDropsInfinity | src/app/actions.ts:14 | n drops Infinity and -Infinity to null |
| Actions.GenreIdOf | src/app/actions.ts:25-26 | the genre id is null exactly for "" and "none" and is the text otherwise |
| Actions.FormBookData | src/app/actions.ts:19-52 | each text column is null when its trimmed field is empty and the trimmed text otherwise; each number column is left out when n gave null and n's number otherwise; the title is the trimmed title |
| Actions.Normalize | src/app/actions.ts:17-56 | an empty trimmed title rejects with "Título é obrigatório."; otherwise a non-empty trimmed id selects an update of that id and its absence a create, both carrying the form's data |
| Actions.Message | src/app/actions.ts:65 | a rejection carries its own message; a create and an update get the created and updated messages |
| Actions.AcceptedDataIsNormalized | src/app/actions.ts:19-52 | accepted data has a non-empty trimmed title, text columns null or non-empty trimmed, numbers never null, and a genre id never undefined, "" or "none" |
| Actions.FormUpdateAlwaysSetsGenre | src/app/actions.ts:25-26 | an update from a form never leaves the genre as it was; a form without a genre field disconnects it |
| Repo.UpdateGenreEdge | src/lib/repo.ts:62-71 | update connects exactly for a non-empty id, disconnects exactly for null, and changes nothing exactly for undefined or "" |
| Repo.CreateGenreEdge | src/lib/repo.ts:51 | create connects exactly for a non-empty id and never disconnects |
| Repo.ApplyEdge | src/lib/repo.ts:73-80 | connect sets the reference, disconnect clears it, no change keeps it |
| Repo.CreateAndUpdateRulesDifferOnlyOnNull | src/lib/repo.ts:47-71 | the create and update rules agree on every genre id except null |
| Repo.CreateRuleIsUpdateRuleOnFreshBook | src/lib/repo.ts:51 | on a book with no genre both rules give the same reference |
| Repo.NewBook | src/lib/repo.ts:46-55 | a created row has the given id, time and title, stores every supplied column's value and leaves each left-out or null column empty, and has a genre only when the create rule connects |
| Repo.CreateIsUpdateOfBlank | src/lib/repo.ts:46-55 | the created row is exactly the update of a blank row with the same data, so the update rules in UpdateChangesOnlySuppliedFields hold for create |
| Repo.Updated | src/lib/repo.ts:58-81 | an updated row keeps its id and creation time, takes the supplied title, and its genre follows the update rule |
| Repo.UpdateChangesOnlySuppliedFields | src/lib/repo.ts:59-80 | for every column: left out keeps its value, null clears it, a value replaces it; a missing title keeps the title; an empty genre id keeps the genre |
| Repo.UpdateWithNoChangesIsIdentity | src/lib/repo.ts:73-80 | an update supplying nothing leaves the row as it was |
| Repo.UpdateIsIdempotent | src/lib/repo.ts:73-80 | repeating the same update changes nothing more |
| Repo.InsertNewest | src/lib/repo.ts:25 | inserting into a newest-first listing keeps it newest first and adds exactly that book |
| Repo.LexLeReflexive | src/lib/repo.ts:41 | every name sorts no later than itself |
| Repo.LexLeTotal | src/lib/repo.ts:41 | any two names are ordered one way or the other |
| Repo.LexLeTransitive | src/lib/repo.ts:41 | the name order is transitive |
| Repo.ByNamePairwise | src/lib/repo.ts:41 | in a by-name listing every genre sorts no later than any genre after it |
| Repo.InsertByName | src/lib/repo.ts:41 | inserting into a by-name listing keeps it ascending and adds exactly that genre |
| Repo.Library.constructor | src/lib/repo.ts:21 | a store starts with the given genres, no books, and its invariant |
| Repo.Library.WithGenre | src/lib/repo.ts:26 | a row comes with the stored genre its reference names, and with none when it has no reference |
| Repo.Library.ListBooks | src/lib/repo.ts:23-28 | the listing holds every stored book exactly once, with its genre, newest first |
| Repo.Library.GetBook | src/lib/repo.ts:31-36 | the book with that id and its genre, or None exactly when no book has the id |
| Repo.Library.ListGenres | src/lib/repo.ts:39-43 | the listing holds every genre exactly once, ascending by name |
| Repo.Library.CreateBook | src/lib/repo.ts:46-55 | a missing title or a connect to a missing genre fails and stores nothing; otherwise the new row is stored under its id and returned with its genre; the invariant is kept |
| Repo.Library.UpdateBook | src/lib/repo.ts:58-81 | an unknown id or a connect to a missing genre fails and changes nothing; otherwise only that row is replaced by its update and returned with its genre |
| Repo.Library.DeleteBook | src/lib/repo.ts:84-86 | an unknown id fails; the store afterwards is the old store without that id and nothing else |
| Page.Param | src/app/page.tsx:23-35 | a string passes through, an array gives its first element or the fallback when empty, and an absent parameter gives the fallback |
| Page.Query | src/app/page.tsx:23-28 | query is `Param` with the fallback ""; Page.DefaultsWhenMissing and Page.PageAgreesWithFilters state its values |
| Page.GenreOf | src/app/page.tsx:30-35 | genre is `Param` with the fallback 'all'; Page.DefaultsWhenMissing and Page.PageAgreesWithFilters state its values |
| Page.GenreId | src/app/page.tsx:37 | genreId is "" for 'all' and the genre otherwise |
| Page.GenreIdEmpty | src/app/page.tsx:30-37 | genreId is empty exactly when the genre is 'all' or empty |
| Page.DefaultsWhenMissing | src/app/page.tsx:23-35 | an absent or empty-array query gives "" and genre gives 'all' |
| Page.ParamOf | src/app/page.tsx:8-11 | a name with no pairs is undefined, one pair gives a string and several give the array of their values in order |
| Page.PageAgreesWithFilters | src/components/Filters.tsx:21-22 | the page and the filter bar read the same query and genre from the same URL |
| Filters.WithoutName | src/components/Filters.tsx:32 | delete leaves no pair of that name |
| Filters.WithoutNameKeepsOthers | src/components/Filters.tsx:30-32 | delete keeps the pairs of every other name, in order |
| Filters.WithoutNameIdempotent | src/components/Filters.tsx:32 | deleting twice equals deleting once |
| Filters.NamedOfWithoutName | src/components/Filters.tsx:31-32 | after delete no pair has that name |
| Filters.NamedOfSet | src/components/Filters.tsx:33-34 | after set exactly one pair has that name, holding the new value |
| Filters.SetKeepsOthers | src/components/Filters.tsx:30-34 | set keeps every pair of another name, in the same relative order |
| Filters.SetOfNoName | src/components/Filters.tsx:34 | set on a list without the name appends the pair |
| Filters.SetMatchesStandard | src/components/Filters.tsx:34 | the scan equals the standard's set: the first pair of that name takes the value in place, later ones go, or the pair is appended |
| Filters.FirstValue | src/components/Filters.tsx:21-22 | get(name): the value of the first pair with that name, or null; Filters.FirstValueOfNamed relates it to Named |
| Filters.SetAsStandard | src/components/Filters.tsx:34 | set as section 6.2 of the WHATWG URL Standard words it, the reference the loop in Filters.SearchParams.Set is proved against |
| Filters.FirstValueOfNamed | src/components/Filters.tsx:21-22 | get returns the value of the first pair of that name, or null when there is none |
| Filters.SearchParams.constructor | src/components/Filters.tsx:30 | the copy starts with the current pairs |
| Filters.SearchParams.Delete | src/components/Filters.tsx:32 | the loop leaves exactly the list without that name |
| Filters.SearchParams.Set | src/components/Filters.tsx:34 | the loop leaves exactly the standard's set of the old list |
| Filters.QueryString | src/components/Filters.tsx:28-39 | the pairs createQueryString serialises with `params.toString()`: delete for 'all' or '', set otherwise; Filters.CreateQueryString and the round-trip lemmas state its properties |
| Filters.CreateQueryString | src/components/Filters.tsx:28-39 | for 'all' or '' no pair has the name; for any other value exactly one pair has it, with that value; the pairs of other names are the current ones |
| Filters.InitialQuery | src/components/Filters.tsx:21 | the initial search is the first query value, or '' without one |
| Filters.InitialGenre | src/components/Filters.tsx:22 | the initial genre is the first genre value, or 'all' without one |
| Filters.GenreRoundTrip | src/components/Filters.tsx:21-39 | choosing a genre and reading the URL back gives that genre; '' and 'all' read back as 'all' |
| Filters.OtherFilterUnchanged | src/components/Filters.tsx:28-39 | changing the genre leaves the initial query as it was, and the reverse |
| Filters.QueryAllIsDropped | src/components/Filters.tsx:31 | as written, a search for "all" leaves no query pair and reads back as the empty search |
| Filters.IntendedQueryString | src/components/Filters.tsx:31-34 | with 'all' clearing only the genre: '' clears any name, the genre's 'all' clears the genre, anything else is set; other names are kept |
| Filters.IntendedQueryRoundTrip | src/components/Filters.tsx:31-32 | under the intended definition every search text reads back as typed |
| Filters.IntendedGenreUnchanged | src/components/Filters.tsx:31 | the intended definition treats the genre exactly as the code does |
| StatsPanel.Pct | src/components/StatsPanel.tsx:7-10 | pct is 0 for a zero denominator, otherwise n*100/d rounded to the nearest integer with halves up |
| StatsPanel.PctInRange | src/components/StatsPanel.tsx:9 | for 0 <= n <= d, pct lies between 0 and 100 |
| StatsPanel.PctOfNothing | src/components/StatsPanel.tsx:9 | 0 out of a positive whole is 0% |
| StatsPanel.PctOfWhole | src/components/StatsPanel.tsx:9 | a whole out of itself is 100% |
| StatsPanel.StatusKey | src/components/StatsPanel.tsx:16 | the key of a book without a status is ""; otherwise it has the status's length and each character is the upper case of the status's character at that position |
| StatsPanel.TotalPages | src/components/StatsPanel.tsx:21 | the sum of `pages \|\| 0`; StatsPanel.ReadWithinPages and StatsPanel.SumIgnoresOrder state its properties |
| StatsPanel.TotalRead | src/components/StatsPanel.tsx:22-25 | the sum of `pages \|\| 0` for LIDO books and `currentPage \|\| 0` for the others; StatsPanel.ReadWithinPages bounds it |
| StatsPanel.SumIgnoresOrder | src/components/StatsPanel.tsx:21-25 | each fold gives the same total for any reordering of the books |
| StatsPanel.CountWithinTotal | src/components/StatsPanel.tsx:15-16 | a status count lies between 0 and the number of books |
| StatsPanel.CountIsZero | src/components/StatsPanel.tsx:15-16 | a status count is 0 exactly when no book's upper-cased status matches |
| StatsPanel.ByStatus | src/components/StatsPanel.tsx:15-16 | byStatus is at most the number of books, and 0 exactly when no upper-cased status matches |
| StatsPanel.TwoCountsWithinTotal | src/components/StatsPanel.tsx:15-19 | counts for two different statuses add up to at most the total, so lendo + lido <= total |
| StatsPanel.ReadWithinPages | src/components/StatsPanel.tsx:21-25 | when each book's current page lies within its pages, the pages read lie between 0 and the library's pages |
| StatsPanel.Panel | src/components/StatsPanel.tsx:12-25 | total is the number of books, lendo and lido are the status counts with lendo + lido <= total, and an empty page total shows 0% |
| StatsPanel.PercentReadInRange | src/components/StatsPanel.tsx:41 | with consistent progress the percentage hint lies between 0 and 100 |
| StatsPanel.PanelIgnoresOrder | src/components/StatsPanel.tsx:12-25 | the panel is the same for any ordering of the same books |
| BookCard.Progress | src/components/BookCard.tsx:17-20 | progress is 0 unless pages and current page are both truthy, and otherwise the rounded current*100/pages |
| BookCard.ProgressIsPct | src/components/BookCard.tsx:17-20 | the card's progress equals the panel's pct of current page over pages, missing counts as 0 |
| BookCard.ProgressInRange | src/components/BookCard.tsx:17-20 | a current page within the book gives progress between 0 and 100 |
| BookCard.ProgressBarVisible | src/components/BookCard.tsx:102 | the bar shows when progress is positive and the status is exactly 'LENDO'; BookCard.VisibleBarHasCounts states what that implies |
| BookCard.VisibleBarHasCounts | src/components/BookCard.tsx:102 | a shown progress bar means status is exactly 'LENDO', both counts are set and non-zero, and with positive pages the current page is positive |
| BookCard.CoverSrc | src/components/BookCard.tsx:27 | the image is the cover, or '/bookoru-capa.jpeg' when it is missing or empty; never empty |
| BookCard.AuthorText | src/components/BookCard.tsx:81 | the author, or "Autor desconhecido" when missing or empty |
| BookCard.YearSuffix | src/components/BookCard.tsx:82 | the ", year" suffix is present exactly when the year is truthy |
| BookCard.AuthorLine | src/components/BookCard.tsx:81-82 | the line is the author text followed by the suffix, longer than the author exactly when the year is truthy |
| BookCard.YearSuffixRoundTrip | src/components/BookCard.tsx:82 | a year of magnitude up to 2^53, as shown, reads back through n as the stored year |
| BookCard.GenreBadge | src/components/BookCard.tsx:85-89 | the badge shows the genre's name exactly when there is a genre with a non-empty name |
| BookCard.GhostStrip | src/components/BookCard.tsx:91-100 | no strip for a missing or zero rating; a rating outside 0..5 throws; otherwise rating lit and 5 - rating faded ghosts |
| BookCard.StripHasFiveGhosts | src/components/BookCard.tsx:91-100 | for ratings 1 to 5 the strip is five ghosts, the first rating of them lit |
| BookCard.ViewHref | src/components/BookCard.tsx:39 | the view link is "/books/" followed by the id |
| BookCard.EditHref | src/components/BookCard.tsx:60 | the edit link is the view link followed by "/edit" |
| BookCard.ViewHrefRoundTrip | src/components/BookCard.tsx:53 | the view link names that very book |
| BookCard.HrefsDistinguishBooks | src/components/BookCard.tsx:39-60 | different books have different view links and different edit links |
| RatingInput.Toggle | src/components/RatingInput.tsx:10-16 | clicking the current rating resets it to 0, any other index becomes the rating |
| RatingInput.ClickTwice | src/components/RatingInput.tsx:10-16 | two clicks on one ghost restore a rating equal to it and otherwise leave 0 |
| RatingInput.Lit | src/components/RatingInput.tsx:23 | a ghost is lit when its index is at most `hover \|\| rating`; RatingInput.LitAfterClick and RatingInput.RatingInput.MouseLeave state which ghosts that lights |
| RatingInput.AfterClicks | src/components/RatingInput.tsx:10-16 | after any sequence of clicks the rating is 0, the starting rating or one of the clicked ghosts |
| RatingInput.ClicksStayInRange | src/components/RatingInput.tsx:21-34 | from a rating in 0..5, any sequence of clicks on ghosts 1..5 keeps it in 0..5 |
| RatingInput.LitAfterClick | src/components/RatingInput.tsx:23 | without hover, after a click on another ghost exactly the ghosts up to it are lit; after a click on the rating none are |
| RatingInput.HiddenValueRoundTrip | src/components/RatingInput.tsx:20 | for a rating of magnitude up to 2^53, the hidden field reads back through n as the rating, 0 included |
| RatingInput.RatingInput.constructor | src/components/RatingInput.tsx:6-8 | the rating starts at the initial value and nothing is hovered |
| RatingInput.RatingInput.Click | src/components/RatingInput.tsx:10-16 | the new rating is the toggle of the old one; hover is untouched |
| RatingInput.RatingInput.MouseEnter | src/components/RatingInput.tsx:35 | hover becomes the ghost's index; the rating is untouched |
| RatingInput.RatingInput.MouseLeave | src/components/RatingInput.tsx:36 | hover resets to 0, the rating is untouched and the lit ghosts follow the rating |
| RatingInput.RatingInput.IsActive | src/components/RatingInput.tsx:23 | isActive of ghost index in the component's state, which is `Lit` of its hover and rating |
| RatingInput.RatingInput.HiddenValue | src/components/RatingInput.tsx:20 | the hidden value is a non-empty trimmed numeral |
| GhostRating.Active | src/components/GhostRating.tsx:19 | active is the hovered index while there is one and the value otherwise |
| GhostRating.IsOn | src/components/GhostRating.tsx:29 | a button is lit when its index is at most the active index; GhostRating.Buttons and GhostRating.LitIsPrefix state the strip it gives |
| GhostRating.IsChecked | src/components/GhostRating.tsx:35 | a button is checked when its index is the value; GhostRating.OneCheckedAtMost states that at most one is |
| GhostRating.Label | src/components/GhostRating.tsx:43-44 | the label is "1 fantasma" for index 1 and "{idx} fantasmas" for every other |
| GhostRating.LabelsDiffer | src/components/GhostRating.tsx:43-44 | different indices have different labels |
| GhostRating.Buttons | src/components/GhostRating.tsx:27-44 | max buttons (none when max <= 0) indexed 1..max, lit iff idx <= active, checked iff idx == value, labelled |
| GhostRating.OneCheckedAtMost | src/components/GhostRating.tsx:35 | at most one button is checked, and one is exactly when the value is one of the indices |
| GhostRating.LitIsPrefix | src/components/GhostRating.tsx:29 | every button before a lit one is lit |
| GhostRating.GhostRating.constructor | src/components/GhostRating.tsx:12-18 | the props are kept and nothing is hovered |
| GhostRating.GhostRating.MouseEnter | src/components/GhostRating.tsx:36 | hover becomes the index, which is then the active index |
| GhostRating.GhostRating.MouseLeave | src/components/GhostRating.tsx:37 | hover resets to null, so the active index falls back to the value |
| GhostRating.GhostRating.Click | src/components/GhostRating.tsx:38 | a click reports its own index to onChange when there is one, even when it is the value; there is no clearing |
| GhostRating.GhostRating.ActiveIndex | src/components/GhostRating.tsx:19 | the active index is the hovered button while there is one and the value otherwise |
| GhostRating.GhostRating.View | src/components/GhostRating.tsx:27-29 | the view renders exactly max buttons, none for max <= 0 |
| Fixture.SeedPanel | prisma/seed.ts:32-93 | for the seed books: total 5, lendo 2, lido 1, 3141 pages, 617 read, shown as 20% |
| Fixture.SeedCards | prisma/seed.ts:32-93 | seed cards: progress 24% and 17% with the bar shown for the two LENDO books, no strip for unrated books, and the author line "Douglas Adams, 1979" |

## Left out

- NOfNumeral, NumberOfIntToString, YearSuffixRoundTrip and HiddenValueRoundTrip are stated for integers of magnitude up to 2^53. Above that a double rounds the value, and the model does not compute that rounding.
- Actions.N: Number() is evaluated only for integer literals (decimal, 0x, 0o, 0b, ±Infinity). A literal with a fraction or an exponent ("2.5", "1e3") is recognised, but n gives null for it where the code gives the number, because floating point is not modelled. The same holds for an integer literal between 2^53 and the double overflow threshold: the code gives the rounded double, and the model gives null. Beyond the threshold both give null (Actions.NOfHugeNumeral).
- JsRuntime.StringToNumber: for a literal with a fraction or an exponent, and for an integer literal between 2^53 and the overflow threshold in magnitude, it gives NotEvaluated rather than the double value, for the same reason.
- JsRuntime.IntToString prints every integer in full digits. JS `String(k)` switches to exponent form ("1e+21") from 10^21 on. The form's inputs bound years and ratings only in the browser; saveBook accepts any finite number, so a stored year or page count of 10^21 or more would print differently.
- StatsPanel.Pct, BookCard.Progress and JsRuntime.RoundQuotient round the exact rational n*100/d. The code rounds the IEEE double (n/d)*100, which differs whenever that double lands just below an exact half. For example, 29 of 200 pages is 14.499999999999998 as a double, so the code shows 14% where the model gives 15 (StatsPanel.Pct(29, 200) == 15).
- JsRuntime.ToUpperCase maps only the ASCII letters; full Unicode case mapping is not modelled. Every status the form offers is ASCII.
- Repo.LexLe orders genre names by code point. The database's collation for `orderBy: { name: "asc" }` is not modelled.
- Repo.Library.CreateBook takes the new id and the creation time as parameters, because the store draws them. It requires an id not yet stored. Column defaults of the schema are not modelled: status has no default here, and a column left out is simply empty.
- Enum validation by the storage client is not modelled: `status` is a plain string and any text is stored. The repository's `BookUpdatable` enum names disagree with the form's status values anyway.
- Repo.Library.ListBooks leaves the order of books with equal creation times unspecified, as the query does.
- Constraint and connection failures of the store are not modelled, apart from the three error cases the table has (unknown id, missing genre, missing title). Because saveBook catches nothing, these errors would propagate to its caller.
- The repository call that ends saveBook is not modelled: the result object with the book's id and the three `revalidatePath` calls (src/app/actions.ts:54-66). `Actions.Message` gives the message it returns.
- The `deleteBook` server action (src/app/actions.ts:69-73) is not modelled, since it is a repository call followed by cache invalidation. `Repo.Library.DeleteBook` models the deletion itself.
- URL text is not modelled: URLSearchParams parsing and serialisation (percent-encoding, application/x-www-form-urlencoded), and escaping of book ids inside links. A query string is its list of pairs.
- Page.ParamOf models how the framework turns repeated URL parameters into a string or an array; the framework's own code is not part of this model.
- React and Next.js plumbing is not modelled: useDebounce timing, the effect that pushes the query only when it differs from the initial one, router.push, state-update batching, transitions, toasts and rendering.
- The RatingInput buttons' aria-label ("Avaliar n fantasmas") and the card's alt text are not modelled.
- BookForm, BookList, DeleteBookDialog, SubmitButton, StatCard, ThemeToggle, layout.tsx, the new-book and book pages, and next.config.ts hold no logic beyond wiring and are not part of this model.
- Fixture: the seed books' synopses are omitted. Their creation times and ids are placeholders, because the store assigns them.

## Findings

| source | as written | input that shows it | evidently intended | confidence | as-written member | corrected member |
|---|---|---|---|---|---|---|
| src/components/Filters.tsx:31 | `createQueryString` deletes the parameter whenever the value is 'all' or '', whatever the parameter's name | typing the search text "all": `createQueryString('query', 'all')` removes `query` from the URL, which then reads back as the empty search | 'all' is the genre selector's "every genre" sentinel (its SelectItem value), so it should clear only `genre`; a search for "all" should stay in the URL (Filters.IntendedQueryRoundTrip) | medium, not executed | Filters.QueryAllIsDropped | Filters.IntendedQueryString |
