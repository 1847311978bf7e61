# Read: a verified model of the book catalogue core

Read is a SwiftData/SwiftUI app that keeps a catalogue of books, their authors and the
series they belong to. This project models its core in Dafny and proves properties of
the model:

- **Legacy schemas and migration** (`legacy.dfy`, `migration.dfy`, `text.dfy`).
  - The version 1 to 3 book records and their author-string transforms: comma splitting, joining, and the "Last, First" sort key.
  - The migration plan's three stages.
  - The version 3 to 4 rebuild of the Book/Author/Series graph from snapshots of the old books.
- **The store** (`records.dfy`, `store.dfy`).
  - The current `Book`, `Author` and `Series` records, kept in maps by id.
  - The inverse relationships that SwiftData maintains (`Book.authors` / `Author.books`, `Book.series` / `Series.books`), with the nullify delete rule.
  - `Linked` states that both inverses are symmetric and every reference is stored. `Paired` states that a book has a series exactly when it has a series order.
- **The repository** (`bookdb.dfy`, `order.dfy`).
  - `BookDB`'s create/read/update/delete operations and its test data.
  - Each save or fetch may fail. The failure is an input of the call.
- **The state and the reducer** (`state.dfy`, `reducer.dfy`, `reducer_facts.dfy`).
  - `BookState` and its sorted reads.
  - The eight `ModelEvent` handlers. `Effect` states what one event does to the store, to the three cached lists and to `lastError`, given which store call (if any) is the first to fail.
- **The form logic of the views** (`forms.dfy`, `editbook.dfy`, `booklist.dfy`).
  - Author selection without repeats, and the series-name completion.
  - New author and new series validity.
  - The book editor's `updateBook` / `updateSeries`.
  - The new-book form and the "last in series" row filter.
  - The `bound` text binding of an optional string.

Clock values, UUIDs and command-line flags are parameters. Sorting compares strings by
code point.

## Model

| member | source | states |
|---|---|---|
| Text.Split | Read/BookV1.swift:43-45 | `split(separator:omittingEmptySubsequences: true)`: every piece is non-empty and free of the separator |
| Text.SplitJoin | Read/BookV1.swift:43-45 | splitting the join of non-empty, separator-free pieces gives back exactly those pieces |
| Text.SplitPieceThen | Read/BookV1.swift:43-45 | a piece followed by a separator splits into that piece and what follows |
| Text.SplitOnlySeparators | Read/BookV3.swift:43-45 | a string made only of separators splits into no pieces |
| Text.SplitSingle | Read/BookV1.swift:43-45 | a non-empty string without the separator is one piece |
| Text.FoldJoinIsJoin | Read/BookMigration.swift:31-33 | the `reduce` that appends `", " + x` to an accumulator equals joining the accumulator and the rest with `", "` |
| Text.JoinCons | Read/BookMigration.swift:31-33 | joining a head and a rest puts the separator between them only when the rest is non-empty |
| Text.Join | Read/BookMigration.swift:31-33 | no contract of its own: `SplitJoin`, `JoinCons` and `FoldJoinIsJoin` prove it the inverse of `Split` on non-empty separator-free pieces and equal to the source's `reduce` |
| Text.Lower | Read/EditBookView.swift:159-162 | `lowercased()` on ASCII keeps the length and lowers each capital letter, leaving every other character alone |
| Legacy.NewBookV1 | Read/BookV1.swift:34-49 | the stored authors are the non-empty comma segments of the string |
| Legacy.NewBookV1Segments | Read/BookV1.swift:43-45 | a string joined from non-empty comma-free names is stored as exactly those names, in order |
| Legacy.AuthorStringIsJoin | Read/BookV1.swift:27-32 | `authorString` is the authors joined with `", "`; one author is returned as is |
| Legacy.AuthorString | Read/BookV1.swift:27-32 | no contract of its own: `AuthorStringIsJoin` proves it the `", "` join of the authors, one author returned as is |
| Legacy.SortFormOfWords | Read/BookV2.swift:49-55 | a segment of words becomes the last word, `", "`, and the other words joined by one space; a single word w gives `"w, "` |
| Legacy.SortFormOfBlank | Read/BookV2.swift:56 | a whitespace-only segment is kept verbatim |
| Legacy.SortForm | Read/BookV2.swift:49-56 | no contract of its own: `SortFormOfWords` and `SortFormOfBlank` prove "last, others" for a segment with words and the segment verbatim otherwise |
| Legacy.SortNames | Read/BookV2.swift:45-58 | one entry per non-empty comma segment, each its sort form |
| Legacy.SortNamesOfNames | Read/BookV2.swift:46-57 | for a string joined from names, entry i is the sort form of name i |
| Legacy.BookV2.constructor | Read/BookV2.swift:31-43 | `init` stores the fields and `authors` agrees with `author` |
| Legacy.BookV2.UpdateAuthors | Read/BookV2.swift:45-58 | `authors` becomes the sort forms of the author segments |
| Legacy.BookV2.LastName | Read/BookV2.swift:27-29 | no contract of its own: requires a non-empty `authors`; `SortAuthorIsV2LastName` proves it equals the V3 sort key of the same author |
| Legacy.SortAuthorFirstSegment | Read/BookV3.swift:43-51 | only the first non-empty comma segment decides `sortAuthor` |
| Legacy.SortAuthorNoSegment | Read/BookV3.swift:43-55 | an author with no non-empty segment leaves `sortAuthor` as it was |
| Legacy.SortAuthorIdempotent | Read/BookV3.swift:42-56 | `setSortAuthor` twice equals once, and with a segment the result does not depend on the old value |
| Legacy.SortAuthorIsV2LastName | Read/BookV3.swift:42-56 | the V3 sort key equals the first V2 `authors` entry (V2 `lastName`) |
| Legacy.SortAuthorOf | Read/BookV3.swift:42-56 | no contract of its own: `SortAuthorFirstSegment`, `SortAuthorNoSegment` and `SortAuthorIdempotent` prove that only the first segment decides it, that no segment keeps the old value, and that it is idempotent |
| Legacy.BookV3.constructor | Read/BookV3.swift:28-40 | `init` sets the fields and computes `sortAuthor` from the author, defaulting to "Unknown" |
| Legacy.BookV3.SetSortAuthor | Read/BookV3.swift:42-56 | `sortAuthor` becomes the sort form of the first segment, or stays when there is none |
| Migration.Stages | Read/BookMigration.swift:159-163 | the stages run V1→V2, V2→V3, V3→V4, each starting where the previous ended |
| Migration.MigratedAuthorIsJoin | Read/BookMigration.swift:25-35 | no authors gives `"unknown"`, otherwise the authors joined with `", "`, equal to V1 `authorString` |
| Migration.MigratedAuthor | Read/BookMigration.swift:25-35 | no contract of its own: `MigratedAuthorIsJoin` proves `"unknown"` for no authors and otherwise the `", "` join, equal to V1 `authorString` |
| Migration.MigrateV1toV2 | Read/BookMigration.swift:23-38 | every fetched book's `author` is derived from its `authors`; `authors` and the title stay |
| Migration.MigrateV2toV3 | Read/BookMigration.swift:45-51 | every fetched book gets `setSortAuthor`; author and title stay |
| Migration.MigrationPlan.WillMigrate | Read/BookMigration.swift:59-65 | the snapshot buffer gains one snapshot per V3 book, in order, after what it held |
| Migration.FirstSnapshot | Read/BookMigration.swift:90 | the first snapshot with an equal title, or none when no title matches |
| Migration.ParseNameOfWords | Read/BookMigration.swift:95-105 | one word gives (word, ""); more give (last word, the others joined by one space) |
| Migration.ParseNameOfBlank | Read/BookMigration.swift:106-108 | a whitespace-only segment gives ("Unknown", "") |
| Migration.ParseName | Read/BookMigration.swift:95-108 | no contract of its own: `ParseNameOfWords` and `ParseNameOfBlank` prove the one-word, many-word and blank cases; `ParseNameMatchesSortForm` ties it to the V3 sort key |
| Migration.ParseNameMatchesSortForm | Read/BookMigration.swift:95-105 | the parsed name agrees with the V3 sort key of the same segment |
| Migration.NamesOf | Read/BookMigration.swift:92-94 | one parsed name per non-empty comma segment of the author string |
| Migration.FindAuthor | Read/BookMigration.swift:113-115 | the first fetched author with equal last and first name, or none |
| Migration.FindSeries | Read/BookMigration.swift:140-142 | the first fetched series with an equal name, or none |
| Migration.AttachAuthorStep | Read/BookMigration.swift:113-130 | the author is reused or created, appended to the book's authors, and lists the book |
| Migration.AttachAuthors | Read/BookMigration.swift:94-131 | attaching names one by one keeps the graph well-formed and the fetched authors reusable |
| Migration.AttachAuthorsKeeps | Read/BookMigration.swift:94-131 | attaching names only appends to this book's list and keeps existing authors |
| Migration.AttachAuthorsSpec | Read/BookMigration.swift:94-131 | the book's authors follow the names in order, each reused from the fetched list or new |
| Migration.NoFetchedAuthorsAllNew | Read/BookMigration.swift:113-124 | with nothing fetched, every name creates a new author, even a repeated one |
| Migration.WithAuthors | Read/BookMigration.swift:86-88 | a nil authors list becomes `[]` |
| Migration.V4AuthorsSpec | Read/BookMigration.swift:82-133 | with no title match the authors stay; otherwise one author per segment is appended |
| Migration.V4Authors | Read/BookMigration.swift:82-133 | the book keeps a non-nil authors list, fetched authors stay reusable, ids stay fresh, the book set and the series stay; `V4AuthorsSpec` gives the appended authors |
| Migration.V4SeriesSpec | Read/BookMigration.swift:135-157 | with a matching snapshot that has a series, the book gets a reused or new series listing it, order untouched; otherwise nothing changes |
| Migration.V4Series | Read/BookMigration.swift:135-157 | ids stay fresh, fetched series stay reusable, the book set and the authors are unchanged; `V4SeriesSpec` gives the series the book joins |
| Migration.MigrateBook | Read/BookMigration.swift:70-75 | one book: `v4Authors`, then `v4Series` only when it has an order; the graph stays well-formed |
| Migration.MigrateBooks | Read/BookMigration.swift:70-75 | the loop over books keeps the graph well-formed and the fetched lists reusable |
| Migration.MigrateBooksSpec | Read/BookMigration.swift:70-75 | over distinct books, every visited book ends rebuilt from the first V3 snapshot with its title (title and order kept, one author per name appended, each named so and listing the book, the named series when the book has an order); every other book is unchanged |
| Migration.MigrateBookApplied | Read/BookMigration.swift:70-75 | one pass of the loop rebuilds its book from that snapshot, as above |
| Migration.MigrateBookFrame | Read/BookMigration.swift:70-75 | one pass keeps every stored author and series under its name, only appends to their book lists, and leaves every other book as it was |
| Migration.AppliedKept | Read/BookMigration.swift:82-157 | what a pass set up for its book survives a later pass on another book |
| Migration.V4AuthorsApplied | Read/BookMigration.swift:82-133 | after `v4Authors` the book keeps title and order and has the snapshot's authors appended, each named as in the snapshot and listing the book |
| Migration.V4AuthorsFrame | Read/BookMigration.swift:82-133 | `v4Authors` keeps the stored authors, the series, the book's other fields and every other book |
| Migration.V4SeriesFrame | Read/BookMigration.swift:135-157 | `v4Series` keeps the authors, every stored series under its name, and every other book |
| Migration.MigrationPlan.AddAuthors | Read/BookMigration.swift:82-133 | `v4Authors` as a method on the V4 context equals `V4Authors` |
| Migration.MigrationPlan.AddAuthor | Read/BookMigration.swift:111-130 | one author step equals `AttachAuthor` |
| Migration.MigrationPlan.AddSeries | Read/BookMigration.swift:135-157 | `v4Series` equals `V4Series` |
| Migration.MigrationPlan.DidMigrate | Read/BookMigration.swift:66-79 | the books are migrated in order and the snapshot buffer ends empty |
| Migration.TwoWordNamePipeline | Read/BookMigration.swift:92-105 | "First Last" survives V1→V2 unchanged, sorts as "Last, First" and parses to (Last, First) |
| Records.NewBook | Read/Model/Book.swift:20-24 | a new book has the title and release, no authors, no series and no order |
| Records.NewAuthor | Read/Model/Author.swift:23-28 | a new author has the names, no books and is not expanded |
| Records.NewSeries | Read/Model/Series.swift:17-21 | a new series has the name, no books and is not expanded |
| Records.NameParts | Read/Model/Author.swift:19-21 | `name` is first name, one space, last name; an empty first name gives a leading space |
| Records.NameNotInjective | Read/Model/Author.swift:19-21 | two authors with different names can show the same `name` |
| Records.Remove | Read/Model/Book.swift:14-17 | the nullify rule drops a record from a to-many list and keeps the rest |
| Records.AddIfAbsent | Read/Model/Book.swift:14-17 | relating adds the record to the list once: the list is unchanged when it already holds the record, and gains it at the end otherwise |
| Store.Empty | Read/Model/BookDB.swift:13-18 | a new store is linked and paired |
| Store.InsertBookShape | Read/Model/BookDB.swift:90-93 | inserting a book adds exactly one book, under a fresh id |
| Store.InsertAuthorShape | Read/Model/BookDB.swift:90-93 | inserting an author adds exactly one author, with that name |
| Store.InsertSeriesShape | Read/Model/BookDB.swift:90-93 | inserting a series adds exactly one series, with that name |
| Store.InsertBookKeeps | Read/Model/Book.swift:14-17 | inserting a book keeps the store linked and paired |
| Store.InsertAuthorKeeps | Read/Model/Book.swift:14-17 | inserting an author keeps the store linked and paired |
| Store.InsertSeriesKeeps | Read/Model/Book.swift:14-17 | inserting a series keeps the store linked and paired |
| Store.AppendAuthorKeeps | Read/Model/BookDB.swift:58-62 | `book.authors.append(a)` puts a last in the book's list, relates the book to a, and changes no other book |
| Store.AppendAuthor | Read/Model/BookDB.swift:58-62 | no contract of its own: `AppendAuthorKeeps` proves the author goes last in the book's list, the author lists the book, and the store stays linked and paired |
| Store.SetTitleKeeps | Read/Model/BookDB.swift:100-103 | writing a title keeps the store linked and paired |
| Store.SetReleaseKeeps | Read/EditBookView.swift:167-171 | writing a release keeps the store linked and paired |
| Store.SetAuthorNameKeeps | Read/Model/BookDB.swift:121-125 | renaming an author keeps the store linked and paired |
| Store.SetSeriesNameKeeps | Read/Model/BookDB.swift:127-130 | renaming a series keeps the store linked and paired |
| Store.SetOrderKeeps | Read/Model/BookDB.swift:116-119 | writing an order keeps the links, and the pairing when the book's series agrees |
| Store.SetAuthorsKeeps | Read/Model/BookDB.swift:105-108 | after `book.authors = ids` the book lists exactly ids and an author lists the book iff it is in ids |
| Store.SetAuthors | Read/Model/BookDB.swift:105-108 | no contract of its own: `SetAuthorsKeeps` proves the book lists exactly the ids and each author's `books` is relinked to match |
| Store.SetSeriesKeeps | Read/Model/BookDB.swift:110-112 | after `book.series = s` exactly the books of s hold the book |
| Store.SetSeries | Read/Model/BookDB.swift:110-112 | no contract of its own: `SetSeriesKeeps` proves the old series drops the book, the new one lists it, and the rest stays |
| Store.SetSeriesAndOrderPaired | Read/Model/BookDB.swift:110-114 | setting series and order together, both set or both nil, keeps the store linked and paired |
| Store.ClearAuthorBooksKeeps | Read/Model/Reducer.swift:181 | `author.books = []` leaves no book listing the author |
| Store.ClearAuthorBooks | Read/Model/Reducer.swift:181 | no contract of its own: `ClearAuthorBooksKeeps` proves the author lists no book and no book lists the author, with the store linked |
| Store.DeleteBookShape | Read/Model/BookDB.swift:132-138 | deleting removes exactly that book, leaves every other book as it was, and removes no author or series |
| Store.DeleteBookAuthors | Read/Model/Book.swift:14-15 | deleting a book keeps the author inverse |
| Store.DeleteBookSeries | Read/Model/Book.swift:16-17 | deleting a book keeps the series inverse |
| Store.DeleteBookKeeps | Read/Model/Book.swift:14-17 | after deleting a book no author or series lists it, and the store stays linked and paired |
| Store.DeleteBook | Read/Model/BookDB.swift:132-138 | no contract of its own: `DeleteBookShape`, `DeleteBookAuthors`, `DeleteBookSeries` and `DeleteBookKeeps` prove the book is gone, no author or series lists it, and the store stays linked and paired |
| Store.DeleteAuthorKeeps | Read/Model/BookDB.swift:132-138 | deleting removes exactly that author and keeps the store linked and paired |
| Store.DeleteAuthor | Read/Model/BookDB.swift:132-138 | no contract of its own: `DeleteAuthorKeeps` proves the author is gone, the other authors and the series stay, and the store stays linked, so no book lists it, and paired |
| Store.DeleteSeriesKeeps | Read/Model/BookDB.swift:132-138 | deleting removes exactly that series and keeps the store linked |
| Store.DeleteSeriesUnpairs | Read/Model/Book.swift:16-18 | deleting a series nullifies `book.series` but leaves the order, breaking the pairing |
| Store.DeleteSeries | Read/Model/BookDB.swift:132-138 | no contract of its own: `DeleteSeriesKeeps` proves the series is gone, the other series and the authors stay, and the store stays linked, so no book refers to it; `DeleteSeriesUnpairs` proves a member keeps its order and so is left unpaired |
| Order.StrLeTotal | Read/Model/State.swift:33-46 | the string order is total |
| Order.StrLeTrans | Read/Model/State.swift:33-46 | the string order is transitive |
| Order.StrLeAntisymmetric | Read/Model/State.swift:33-46 | the string order is antisymmetric |
| Order.KeyLeTotal | Read/Model/State.swift:37-42 | the order on key lists is total |
| Order.KeyLeTrans | Read/Model/State.swift:37-42 | the order on key lists is transitive |
| Order.ListsAgree | Read/Model/BookDB.swift:95-98 | two results of one fetch hold the same number of ids |
| Order.DistinctSetSize | Read/Model/BookDB.swift:95-98 | a list without repeats has as many elements as ids |
| Order.Insert | Read/Model/BookDB.swift:95-98 | inserting into an ascending list keeps it ascending and adds exactly that id |
| Order.SortIds | Read/Model/BookDB.swift:95-98 | the fetch lists every id of the kind once, ascending by its sort keys |
| Repository.Resolve | Read/Model/BookDB.swift:105-108 | authors not yet stored become stored; one id per reference |
| Repository.ResolveKeeps | Read/Model/BookDB.swift:105-108 | storing the new authors keeps the store linked and paired |
| Repository.ResolveIds | Read/Model/BookDB.swift:105-108 | a stored author keeps its id, and a new one gets a fresh id and its names |
| Repository.ResolveSeries | Read/Model/BookDB.swift:110-112 | a series not yet stored becomes stored |
| Repository.SortKeys | Read/Model/State.swift:33-46 | the keys cover exactly the records of the kind: title; last then first name; series name |
| Repository.InsertBooksShape | Read/Model/BookDB.swift:44-46 | the loop inserts one book per entry under consecutive ids |
| Repository.SeedBooksFacts | Read/Model/BookDB.swift:31-48 | seeding inserts four unlinked books, the second with a release |
| Repository.SeedAuthorsShape | Read/Model/BookDB.swift:50-63 | book 2 has two authors; books 3 and 4 share McDonald |
| Repository.SeedSeriesShape | Read/Model/BookDB.swift:65-71 | books 3 and 4 are in "Test Series" with orders 1 and 2 |
| Repository.SeededLinked | Read/Model/BookDB.swift:19-24 | the seeded store is linked and paired |
| Repository.SeededShape | Read/Model/BookDB.swift:19-24 | the seeded store holds 4 books, 4 authors and 1 series, linked as listed |
| Repository.BookDB.constructor | Read/Model/BookDB.swift:13-25 | a new store is empty, or seeded when test data is asked for |
| Repository.BookDB.AddTestBooks | Read/Model/BookDB.swift:31-48 | inserts the four test books and returns their ids |
| Repository.BookDB.AddTestAuthors | Read/Model/BookDB.swift:50-63 | relates the four test authors to the books |
| Repository.BookDB.InsertTestAuthors | Read/Model/BookDB.swift:52-55 | the four test authors are inserted in order |
| Repository.BookDB.LinkTestAuthors | Read/Model/BookDB.swift:58-62 | the five `authors.append` calls, in order |
| Repository.BookDB.AddTestSeries | Read/Model/BookDB.swift:65-71 | puts books 3 and 4 in the test series |
| Repository.BookDB.CreateBook | Read/Model/BookDB.swift:90-93 | inserts the book and reports the save's failure; the insert stays either way |
| Repository.BookDB.CreateAuthor | Read/Model/BookDB.swift:90-93 | inserts the author and reports the save's failure |
| Repository.BookDB.CreateSeries | Read/Model/BookDB.swift:90-93 | inserts the series and reports the save's failure |
| Repository.BookDB.Read | Read/Model/BookDB.swift:95-98 | returns every record of the kind in sort order, or the fetch's error |
| Repository.BookDB.UpdateTitle | Read/Model/BookDB.swift:100-103 | writes only the title |
| Repository.BookDB.UpdateAuthors | Read/Model/BookDB.swift:105-108 | stores new authors and sets the book's authors |
| Repository.BookDB.UpdateSeries | Read/Model/BookDB.swift:110-114 | stores a new series and sets series and order |
| Repository.BookDB.UpdateOrder | Read/Model/BookDB.swift:116-119 | writes only the order |
| Repository.BookDB.UpdateAuthorName | Read/Model/BookDB.swift:121-125 | writes only the author's names |
| Repository.BookDB.UpdateSeriesName | Read/Model/BookDB.swift:127-130 | writes only the series' name |
| Repository.BookDB.DeleteBook | Read/Model/BookDB.swift:132-138 | deletes the book, or changes nothing when the delete fails |
| Repository.BookDB.DeleteAuthor | Read/Model/BookDB.swift:132-138 | deletes the author, or changes nothing when the delete fails |
| Repository.BookDB.DeleteSeries | Read/Model/BookDB.swift:132-138 | deletes the series, or changes nothing when the delete fails |
| State.SortedBooks | Read/Model/State.swift:33-35 | all books by title, or the fetch's error |
| State.SortedAuthors | Read/Model/State.swift:37-42 | all authors by last then first name, or the fetch's error |
| State.SortedSeries | Read/Model/State.swift:44-46 | all series by name, or the fetch's error |
| State.Init | Read/Model/State.swift:16-29 | the flags are OR-ed; each list is sorted, or empty when its read fails; `lastError` is nil |
| State.LoadLists | Read/Model/State.swift:26-28 | each list is the store's records sorted, or empty when its read throws; `lastError` is nil |
| State.TestDataCounts | Read/Model/State.swift:16-29 | with test data the state lists 4 books, 4 authors and 1 series |
| State.TestDataLinks | Read/Model/State.swift:16-29 | with test data some book is in the series and some author lists that book |
| Reducer.Faults.At | Read/Model/Reducer.swift:58-69 | exactly the numbered call `failAt` fails |
| Reducer.GetSeries | Read/Model/Reducer.swift:93-100 | a stored result is a cached series with exactly that name; otherwise a new series of that name |
| Reducer.Fetch | Read/Model/Reducer.swift:60 | a refresh stores the sorted list, or records the error and stops |
| Reducer.AddAuthorButton | Read/Model/Reducer.swift:57-70 | the handler does what `Effect` says for the event |
| Reducer.AddBookButton | Read/Model/Reducer.swift:72-85 | the handler does what `Effect` says for the event |
| Reducer.EditAuthorDone | Read/Model/Reducer.swift:145-160 | the handler does what `Effect` says for the event |
| Reducer.EditSeriesDone | Read/Model/Reducer.swift:162-176 | the handler does what `Effect` says for the event |
| Reducer.OnAuthorDelete | Read/Model/Reducer.swift:178-193 | the handler does what `Effect` says for the event |
| Reducer.OnBookDelete | Read/Model/Reducer.swift:195-209 | the handler does what `Effect` says for the event |
| Reducer.OnSeriesDelete | Read/Model/Reducer.swift:211-229 | the loop detaches every member book, as `Effect` says |
| Reducer.BookUpdateOrAddButton | Read/Model/Reducer.swift:88-143 | the title, authors and series phases run in order and stop at the first failure, as `Effect` says |
| Reducer.TitleChange | Read/Model/Reducer.swift:104-109 | the title phase: writes and re-reads the books only when the title differs, and the state follows the resulting step |
| Reducer.AuthorsChange | Read/Model/Reducer.swift:111-115 | the authors phase: writes and re-reads the authors only when the stored authors differ from the passed ones |
| Reducer.SeriesChange | Read/Model/Reducer.swift:117-134 | the series phase: clears, sets or re-orders the book's series as the name and the matching series decide |
| Reducer.Reduce | Read/Model/Reducer.swift:24-51 | each event goes to its handler; the result follows `Effect` |
| Reducer.Effect | Read/Model/Reducer.swift:24-51 | no contract of its own: every handler ensures it follows `Effect`; `EffectKeeps`, `EffectHonest`, `ReduceError` and the per-event `*Effect` lemmas prove what it does |
| Reducer.TitleStep | Read/Model/Reducer.swift:104-109 | the book set, the authors and the series stay; `TitleStepFacts` proves a write happens only for a different title |
| Reducer.AuthorsStep | Read/Model/Reducer.swift:111-115 | the book set and the series stay; `AuthorsStepKeeps` and `AuthorsStepFacts` prove the book then lists the given authors and the store stays linked |
| Reducer.SeriesStep | Read/Model/Reducer.swift:117-133 | no contract of its own: `SeriesStepKeeps`, `SeriesStepOthers`, `SeriesStepCleared` and `SeriesStepNamed` prove its result |
| ReducerFacts.WriteHonest | Read/Model/Reducer.swift:58-69 | a save is one numbered call and fails exactly when it is `failAt` |
| ReducerFacts.WriteReadHonest | Read/Model/Reducer.swift:58-69 | a save and a fetch use at most two calls and fail only at `failAt` |
| ReducerFacts.DeleteReadHonest | Read/Model/Reducer.swift:182-183 | a delete and a fetch use at most two calls and fail only at `failAt` |
| ReducerFacts.SeriesStepHonest | Read/Model/Reducer.swift:117-133 | the series phase uses at most two calls |
| ReducerFacts.EffectHonest | Read/Model/Reducer.swift:24-51 | an error, when set, is the text of call number `failAt`; with no error no call reached `failAt`; an event makes at most six calls |
| ReducerFacts.ReduceError | Read/Model/Reducer.swift:135-142 | `lastError` keeps its value or becomes the failure's text, and keeps its value when no call fails |
| ReducerFacts.GetSeriesFirst | Read/Model/Reducer.swift:94-99 | `getSeries` returns the first cached series with that name, and a new one iff none has it |
| ReducerFacts.DetachAllKeeps | Read/Model/Reducer.swift:214-217 | detaching the members clears their series and order, keeps the others, and keeps the store linked and paired |
| ReducerFacts.MembersAreListed | Read/Model/Reducer.swift:214 | every book in the series is one of `series.books` |
| ReducerFacts.OnSeriesDeleteEffect | Read/Model/Reducer.swift:211-229 | members lose series and order; with no failure the series is gone and only the series list is re-read |
| ReducerFacts.SeriesDeleteStores | Read/Model/Reducer.swift:211-229 | both stores `onSeriesDelete` can leave are linked and paired; members have lost series and order; the second holds every series but the deleted one |
| ReducerFacts.OnBookDeleteEffect | Read/Model/Reducer.swift:195-209 | with no failure the book is gone from the store and from every list; a failed delete changes nothing |
| ReducerFacts.OnAuthorDeleteEffect | Read/Model/Reducer.swift:178-193 | no book lists the author afterwards, even when the delete fails; with no failure the author is gone |
| ReducerFacts.AuthorDeleteStores | Read/Model/Reducer.swift:178-193 | both stores `onAuthorDelete` can leave are linked and paired and list the author on no book; the second no longer holds it |
| ReducerFacts.DeletedNotListed | Read/Model/Reducer.swift:199 | the refreshed list holds exactly the remaining records and not the deleted one |
| ReducerFacts.BookNotListed | Read/Model/Reducer.swift:195-209 | after a delete that does not throw, the books list holds exactly the remaining books |
| ReducerFacts.AuthorNotListed | Read/Model/Reducer.swift:178-193 | after a delete that does not throw, the authors list holds exactly the remaining authors |
| ReducerFacts.SeriesNotListed | Read/Model/Reducer.swift:211-229 | after a delete that does not throw, the series list holds exactly the remaining series |
| ReducerFacts.TitleStepFacts | Read/Model/Reducer.swift:104-109 | the title is written only when it differs, and nothing else about the book changes |
| ReducerFacts.SameRealises | Read/Model/Reducer.swift:111 | an equal author list is already realised by the store |
| ReducerFacts.ResolvedRealises | Read/Model/Reducer.swift:111-113 | after the update the book lists exactly the given authors |
| ReducerFacts.AuthorsStepKeeps | Read/Model/Reducer.swift:111-115 | the authors phase keeps the store linked and paired |
| ReducerFacts.AuthorsStepFacts | Read/Model/Reducer.swift:111-115 | the book lists the given authors and nothing else changes; an equal list writes nothing |
| ReducerFacts.SeriesStepKeeps | Read/Model/Reducer.swift:117-133 | the series phase keeps the store linked and paired |
| ReducerFacts.SeriesStepOthers | Read/Model/Reducer.swift:117-133 | the series phase writes only the book's series and order |
| ReducerFacts.SeriesStepCleared | Read/Model/Reducer.swift:117-122 | an empty name leaves the book with no series and no order |
| ReducerFacts.SeriesStepNamed | Read/Model/Reducer.swift:123-133 | a name puts the book in a series of that name, the first cached or a new one, with the given order |
| ReducerFacts.UpdateOrAddKeeps | Read/Model/Reducer.swift:88-143 | the update keeps the store linked and paired, even when it stops part way |
| ReducerFacts.UpdateOrAddResult | Read/Model/Reducer.swift:102-134 | with no failure the book has the title, the authors and the series the name selects |
| ReducerFacts.UpdateOrAddRefreshes | Read/Model/Reducer.swift:102-134 | with no failure the books are re-read exactly when the title changed, the authors exactly when the author list changed, the series exactly when a named series differs from the book's; a cleared series or an order change re-reads nothing |
| ReducerFacts.TitleStepRefresh | Read/Model/Reducer.swift:104-109 | the title step re-reads the books exactly when the title differs, from the store after the save |
| ReducerFacts.AuthorsStepRefresh | Read/Model/Reducer.swift:111-115 | the author step re-reads the authors exactly when the list differs |
| ReducerFacts.SeriesStepRefresh | Read/Model/Reducer.swift:117-134 | the series step re-reads the series exactly when a named series differs from the book's |
| ReducerFacts.SeriesStepLists | Read/Model/Reducer.swift:117-134 | the series step never re-reads the books or the authors and leaves the authors as they were |
| ReducerFacts.UpdateOrAddTitleStays | Read/Model/Reducer.swift:104-137 | the title is written before the save, so a failing first save keeps it and sets the error |
| ReducerFacts.UpdateOrAddUnchanged | Read/Model/Reducer.swift:104-133 | a request equal to the book makes no call and changes nothing |
| ReducerFacts.AddAuthorEffect | Read/Model/Reducer.swift:57-70 | the author is inserted even when the save fails; with no failure the authors list is re-read |
| ReducerFacts.AddBookEffect | Read/Model/Reducer.swift:72-85 | the book is inserted even when the save fails; with no failure the books list is re-read |
| ReducerFacts.EditAuthorEffect | Read/Model/Reducer.swift:145-160 | only the author's names change |
| ReducerFacts.EditSeriesEffect | Read/Model/Reducer.swift:162-176 | only the series' name changes |
| ReducerFacts.EffectKeeps | Read/Model/Reducer.swift:24-51 | every event keeps the store linked and paired |
| ReducerFacts.AddJohnDoe | ReadTests/ReducerTests.swift:20-26 | adding "John Doe" to an empty store lists one author, named "John Doe" |
| ReducerFacts.AddOneBook | ReadTests/ReducerTests.swift:29-37 | adding a book to an empty store lists one book with that title |
| ReducerFacts.SeriesScenario | ReadTests/ReducerTests.swift:72-99 | adding a book, giving it a series, changing the order, then clearing the name yields stores with one series of the tested name, order 2 after the change, and no series or order after the clear |
| Forms.AuthorSelection.SelectAuthor | Read/BookFormView.swift:60-64 | the selection becomes `Selected(old, author)` |
| Forms.SelectAuthorFacts | Read/BookFormView.swift:60-64 | earlier choices stay in order; the author is appended iff its id is new; ids stay distinct |
| Forms.Selected | Read/BookFormView.swift:60-64 | no contract of its own: `SelectAuthorFacts` proves the author is appended iff its id is new and ids stay distinct |
| Forms.Lookups | Read/SeriesGroupView.swift:74-79 | a name is in the result iff it is a series name starting with the prefix, ignoring case; the result is no longer than the query |
| Forms.LookupsSingle | Read/SeriesGroupView.swift:74-79 | a single name is kept exactly when it matches the prefix |
| Forms.LookupsAppend | Read/SeriesGroupView.swift:74-79 | the result for a concatenation is the concatenation of the results, so the matches come in query order with duplicates kept |
| Forms.MatchesPrefix | Read/SeriesGroupView.swift:74-79 | no contract of its own: the lowercased prefix is a prefix of the lowercased name; `Lookups` keeps exactly the names it accepts |
| Forms.LookupsSorted | Read/SeriesGroupView.swift:74-79 | a sorted query gives sorted matches |
| Forms.SeriesField.OnNameChange | Read/SeriesGroupView.swift:47-54 | matches are recomputed only for names longer than one character; the popover flag is `Popover` |
| Forms.SeriesField.OnFocusChange | Read/SeriesGroupView.swift:55-57 | moving the focus hides the popover |
| Forms.PopoverIff | Read/SeriesGroupView.swift:48-50 | the popover shows iff the name is longer than one character and some series name starts with it |
| Forms.NewAuthorForm.AddAuthor | Read/NewAuthorView.swift:55-64 | inserts the author and sets a bound selection to its name |
| Forms.ValidAuthorUnique | Read/NewAuthorView.swift:49-53 | a valid author has a last name and, once added, is the only author showing that name |
| Forms.InvalidAuthor | Read/NewAuthorView.swift:49-53 | no contract of its own: `ValidAuthorUnique` proves an accepted author has a last name and a new display name; `FirstNameOptional` proves an empty first name is accepted |
| Forms.FirstNameOptional | Read/NewAuthorView.swift:49-53 | a last name alone, with no display-name match, is valid |
| Forms.AddSeries | Read/NewSeriesView.swift:48-50 | inserts one series with the name |
| Forms.ValidSeriesUnique | Read/NewSeriesView.swift:42-47 | a valid name is non-empty and, once added, belongs to that series only |
| Forms.InvalidSeries | Read/NewSeriesView.swift:42-47 | no contract of its own: `ValidSeriesUnique` proves an accepted series has a non-empty new name |
| Forms.Bound | Read/BookFieldViews.swift:100-103 | nil reads as "", `some s` reads as s |
| Forms.Unbound | Read/BookFieldViews.swift:104-106 | "" stores nil, anything else is stored |
| Forms.OptionalText.SetBound | Read/BookFieldViews.swift:104-106 | the setter stores `Unbound(s)` |
| Forms.BoundRoundTrip | Read/BookFieldViews.swift:100-107 | get after set returns what was set; set after get keeps the value, except that `some ""` becomes nil |
| BookList.Shelf.Insert | Read/NewBookView.swift:92 | the inserted book is added at the end |
| BookList.AddBook | Read/NewBookView.swift:83-94 | one new book with the title and author; series and order only with a series name; release only when future |
| BookList.AddDisabled | Read/NewBookView.swift:38 | no contract of its own: the Add button is disabled while the title or the author is empty |
| BookList.LastIsGreatest | Read/BookListView.swift:89-98 | a book with series and order is last iff no book of its series has a greater order, nil counting as 0, so tied books are all last |
| BookList.LastInSeries | Read/BookListView.swift:89-98 | no contract of its own: `LastIsGreatest`, `GreatestInSeries`, `SeriesKeepsARow` and `UnorderedShown` prove which rows it keeps |
| BookList.GreatestInSeries | Read/BookListView.swift:92-93 | among the listed books of a series one has the greatest order |
| BookList.SeriesKeepsARow | Read/BookListView.swift:89-98 | with the toggle on, every series with a listed book still shows one |
| BookList.UnorderedShown | Read/BookListView.swift:89-97 | a book without a series or an order is always shown |
| EditBook.SeriesNameOf | Read/EditBookView.swift:182 | `book.series?.name` is present iff the book has a stored series |
| EditBook.AuthorsOf | Read/EditBookView.swift:147 | `book.authors ?? []` gives one record per stored author, in order |
| EditBook.Opened | Read/EditBookView.swift:136-149 | the form shows the book's release, title and series name, and the order field stays 0 |
| EditBook.OpenedIntended | Read/EditBookView.swift:136-149 | the form with the order field set from the book |
| EditBook.EditBookForm.constructor | Read/EditBookView.swift:136-149 | the form's fields are `Opened` |
| EditBook.EditBookForm.SelectAuthor | Read/EditBookView.swift:152-156 | appends the author unless its id is chosen, changing no other field |
| EditBook.EditBookForm.UpdateSeries | Read/EditBookView.swift:205-218 | the store becomes `WithSeries` |
| EditBook.EditBookForm.UpdateBook | Read/EditBookView.swift:165-203 | the store becomes `Edited` |
| EditBook.AppendRedundant | Read/EditBookView.swift:215-217 | `series.books.append(book)` adds nothing after `book.series = series` |
| EditBook.WithSeriesKeeps | Read/EditBookView.swift:205-218 | `updateSeries` keeps the store linked and paired |
| EditBook.WithSeriesShape | Read/EditBookView.swift:205-218 | the book is in a series of that name, the first of the query or a new one, with the order, listed by it |
| EditBook.WithSeries | Read/EditBookView.swift:205-218 | no contract of its own: `WithSeriesKeeps` and `WithSeriesShape` prove the book joins a series of that name with the order and the store stays linked and paired |
| EditBook.EditedKeeps | Read/EditBookView.swift:165-195 | `updateBook` keeps the store linked and paired |
| EditBook.EditedRelease | Read/EditBookView.swift:167-176 | the release is set iff the toggle is on; the title, the authors and the other books stay |
| EditBook.EditedNoSeries | Read/EditBookView.swift:178-187 | an empty name leaves no series, and clears the order along with a series the book had |
| EditBook.EditedMoved | Read/EditBookView.swift:178-218 | a new name puts the book in the first query series with it, or a new one, with the form's order |
| EditBook.EditedKept | Read/EditBookView.swift:192-195 | the same name keeps the series and writes the form's order |
| EditBook.Edited | Read/EditBookView.swift:165-195 | no contract of its own: `EditedKeeps`, `EditedRelease`, `EditedNoSeries`, `EditedMoved` and `EditedKept` prove what `updateBook` writes |
| EditBook.ReopenResetsOrder | Read/EditBookView.swift:136-195 | opening the editor on a book at order 3 in its series and pressing Update moves it to order 0 |
| EditBook.ReopenKeepsStore | Read/EditBookView.swift:136-195 | with the order read from the book, opening and pressing Update leaves the store as it was |

## Left out

- Records are values in maps keyed by an id. They are not heap objects: SwiftData's object identity, faulting and persistence are abstracted to this store with its inverse relationships.
- Strings are sorted by code point. SwiftData's `SortDescriptor` compares localized. Books with equal keys may come back in any order.
- The clock, `UUID()` and calendar arithmetic are parameters. The command-line flags are parameters too.
- The in-memory flag is recorded but does not change what the store holds.
- Several failures end the app and are not modelled: the `try!` around `BookDB.init` and its test-data save (taken to succeed), the saves in the views (`fatalError`), and the migration's throwing saves and fetches.
- Migration.V4Authors, Migration.V4Series: the fetched authors and series are required to have non-nil `books` arrays (`ReusableAuthors`, `ReusableSeries`), so the crash of the force-unwraps `author.books!.append(book)` and `series.books!.append(book)` on a nil array is not modelled.
- Forms.NewAuthorForm.AddAuthor, Forms.AddSeries: the save that follows the insert is left out, since a failure ends the app.
- EditBook.EditBookForm.UpdateBook: the save is left out, and so is the print about differing authors. The title and the authors edited in the form are not written by the code, and the model does the same.
- Reducer.BookUpdateOrAddButton: requires the book to be stored and every passed author to be stored or new. A deleted book passed in an event is not modelled.
- Reducer.GetSeries: a cached series id that is no longer in the store is skipped.
- `Lower` folds ASCII letters only. Strings are sequences of code points, not of Swift `Character`s (grapheme clusters). So `count` on a name is its number of code points. `Text.Split` splits at every separator code point, even one followed by a combining mark, where Swift's `split(separator:)` sees a single `Character` and does not split. `Forms.MatchesPrefix` compares code points where `hasPrefix` compares `Character`s.
- `NewBookView` and `BookListView` use the version 3 book shape: one author string, the series as a name, `estRelease`. They are modelled over `Legacy.BookV3`. The list's sort and search predicate are left out.
- The order of the series `@Query` in `EditBookView` is not specified, so it is a parameter. The names shown in a lookup are passed in the query's order.
- The SwiftUI bodies, focus handling and navigation are left out, and so are logging and the UDF `Store` with its async `send`.
- In the store (`Store`), a to-many back-reference list (`Author.books`, `Series.books`) holds each record once: an `append` of a record already related adds nothing there.
- Migration.AttachAuthor, Migration.V4Series: the migration's explicit `author.books!.append(book)` and `series.books!.append(book)` are plain array appends. They do not model SwiftData's inverse upkeep or its dedupe. So an author string that names the same fetched author twice lists the book twice in that author's `books`.
- Legacy.AuthorString, Legacy.BookV2.LastName: both require a non-empty author list. The trap of `authors.first!` and `authors[0]` on an empty list is not modelled, and nothing in the source calls either accessor. Store.AppendAuthor: on the book side the author is appended even when the book already lists it. Only the test data calls it, each time with an author the book does not list yet.

## Findings

| source | as written | input that shows it | evidently intended | confidence | as-written member | corrected member |
|---|---|---|---|---|---|---|
| Read/EditBookView.swift:136-149 | `onAppear` fills every field from the book except `seriesOrder`, which stays 0; `updateBook` then writes 0 when the series name is unchanged | a book in series "S" with order 3; open the editor and press Update | the order field starts at `book.seriesOrder ?? 0`, so an unchanged form changes nothing | not executed; high | EditBook.ReopenResetsOrder | EditBook.ReopenKeepsStore |
