# A Dafny model of the 10ch bulletin board core

The board is a small Flask application (`app.py`). It has three parts:

- a static catalog of categories, each listing boards (`categories`);
- two tables, threads and articles. Each article has an integer primary key (`number`) and a random 8-character public `id`;
- request handlers that read and change those tables.

This project models that logic as pure functions over an immutable store.

- `public_id.dfy` (module `PublicId`) models `generate_id`. The random draws are a parameter: a sequence of positions in the 62-symbol alphabet `ascii_letters + digits`. The generator's length-and-alphabet contract is proved exact. Every string of that shape can be produced, and distinct draws give distinct ids.
- `catalog.dfy` (module `Catalog`) holds the catalog table and models the nested lookup loop of `show_subback` exactly as written. The `break` leaves only the inner loop, and `if not board_name` also rejects an empty name. Over the shipped table the lookup is proved to succeed exactly for the 24 listed ids, with that board's name.
- `records.dfy` (module `Records`) holds the `Thread` and `Article` records and the store `(threads, articles, nextThreadId, nextArticleNumber)`. It also holds the queries the handlers issue and the store invariant `Valid`:
  - keys increase and lie below the next key;
  - every article's `thread_id` names an existing thread;
  - every public id has the generator's shape.
- `handlers.dfy` (module `Handlers`) models each handler as a transition:
  - `show_thread` as `ShowThread` (GET) and `PostReply` (POST);
  - `delete_article` as `DeleteArticle`;
  - `show_subback` as `ShowSubback`;
  - `make_thread` as `MakeThread`.

  It adds lemmas for listings, frame conditions and delete idempotence. It also proves that every store reachable from an empty database by any sequence of requests is `Valid`. No handler deletes a thread, which is why referential integrity holds.
- `seqs.dfy` holds the order-preserving `Filter` behind each `filter_by(...).all()`. `wrappers.dfy` holds `Option`.

Three behaviours of the code that the model keeps as written:

- `make_thread` stores the form name verbatim. An empty name stays empty. Only a reply gets `名無しさん` (app.py:119 against app.py:171).
- `make_thread` checks neither the title nor the board id. A thread can therefore be created under a board that `show_subback` answers with 404 (`UnknownBoardIsNotFound`).
- Article listings carry no `order_by`. The model returns articles in stored order and claims no ordering beyond that.

## Model

| member | source | states |
|---|---|---|
| PublicId.GenerateId | app.py:13-15 | the generated id has exactly as many characters as draws, and every character is an ASCII letter or digit |
| PublicId.AlphabetIsAsciiLettersAndDigits | app.py:14 | the alphabet drawn from is the 62 characters `a`-`z`, `A`-`Z`, `0`-`9` in that order |
| PublicId.GenerateIdReachesEveryId | app.py:13-15 | every alphanumeric string of the requested length is a possible output of the generator |
| PublicId.GenerateIdIsInjective | app.py:13-15 | different draws never give the same id, so there are 62^length outcomes |
| Catalog.ScanBoards | app.py:151-154 | the inner loop finds a name iff the category lists the id, and the name is that of the first board with the id |
| Catalog.ScanCategoriesSound | app.py:149-154 | the outer loop keeps either nothing or the name of some catalog board that carries the requested id |
| Catalog.FindBoard | app.py:148-156 | a found board name is non-empty and belongs to a catalog board with that id; on a well-formed catalog "not found" means no board has the id |
| Catalog.ScanCategoriesOnDistinctIds | app.py:149-154 | when ids are distinct, the loop as written (a later category overwrites) agrees with the first match in category/board order |
| Catalog.FindBoardOnWellFormed | app.py:148-156 | on a well-formed catalog the lookup yields `name` iff the catalog lists board (id, name), and succeeds iff some board has the id |
| Catalog.CategoriesWellFormed | app.py:39-104 | the shipped catalog has 24 boards with distinct ids and non-empty names |
| Catalog.FindBoardInCategories | app.py:148-156 | with the shipped catalog, the lookup yields `name` iff some category lists board (id, name), and fails iff no category lists the id |
| Catalog.UnknownBoardId | app.py:155-156 | the id `doesnotexist` is not found in the shipped catalog |
| Catalog.LaterCategoryWins | app.py:150-154 | because `break` leaves only the inner loop, a later category listing the same id supplies the name |
| Catalog.EmptyNameIsNotFound | app.py:155-156 | a listed board whose name is empty is reported as not found |
| Records.FindThread | app.py:116 | thread lookup by primary key fails iff no thread has the id, and a found thread is stored and carries the id |
| Records.ArticlesOf | app.py:126 | the thread's listing holds exactly the stored articles with that thread id, each as often as stored |
| Records.ThreadsOn | app.py:158 | the board's listing holds exactly the stored threads with that board id, each as often as stored |
| Records.FirstWithPublicId | app.py:133 | the article `first()` finds carries the public id and no earlier stored article does |
| Records.RemoveFirst | app.py:133-136 | with no match the articles are unchanged; with a match exactly one article is removed |
| Records.RemoveFirstRemovesFirstMatch | app.py:133-136 | the removed article is the first match; all others stay, in their order |
| Records.RemoveFirstCount | app.py:133-136 | a delete lowers the number of articles with that public id by exactly one while any remain |
| Handlers.ShowThread | app.py:114-127 | GET is a 404 iff no thread has the id; otherwise it shows that thread and exactly its articles |
| Handlers.PostReply | app.py:116-124 | an unknown thread is a 404 that leaves the store unchanged. Otherwise exactly one article is appended, under that thread with a fresh number, verbatim message and a generated public id. Its name is the form name, or `名無しさん` when that is empty. Threads are unchanged |
| Handlers.DeleteArticle | app.py:131-136 | threads and key counters never change; with no match the store is unchanged; otherwise only the first matching article is removed |
| Handlers.ShowSubback | app.py:147-163 | the response is the 404 text iff the catalog lookup fails; otherwise the board shown is a catalog board with the requested id, and the list is exactly the threads with that board id |
| Handlers.MakeThread | app.py:167-182 | one thread (fresh id, given title and board id, no catalog check) and one article in that thread (name verbatim) are appended; the redirect names the new thread |
| Handlers.ReplyListing | app.py:119-126 | after a reply the thread's listing is the old listing followed by the new article |
| Handlers.ReplyLeavesOtherListings | app.py:119-126 | a reply, or a 404 reply, leaves every other thread's listing unchanged |
| Handlers.MakeThreadFindable | app.py:174-182 | the thread the redirect names is found with the given title and board id |
| Handlers.MakeThreadArticles | app.py:174-181 | on a valid store the new thread lists exactly its first article |
| Handlers.MakeThreadLeavesOtherListings | app.py:174-181 | creating a thread leaves every other thread's article listing unchanged |
| Handlers.MakeThreadBoardListing | app.py:174-176 | the new thread is appended to its board's thread list, and other boards' lists are unchanged |
| Handlers.DeleteIdempotent | app.py:133-136 | while at most one article has the public id, deleting twice equals deleting once, and no article with that id remains |
| Handlers.DeleteRemovesFromListing | app.py:133-136 | after deleting an article whose public id is its own, no thread listing shows that public id |
| Handlers.DeleteWithSharedPublicId | app.py:24-25 | public ids are not unique: with two articles sharing one, a second delete removes the second article |
| Handlers.PostReplyKeepsValid | app.py:116-123 | a reply keeps the store invariant, including that every article names an existing thread |
| Handlers.MakeThreadKeepsValid | app.py:174-181 | thread creation keeps the store invariant: the first article names the thread just inserted |
| Handlers.DeleteKeepsValid | app.py:133-136 | deleting an article keeps the store invariant; threads are never removed |
| Handlers.RunKeepsValid | app.py:26-27 | any sequence of replies, new threads and deletes keeps the store invariant |
| Handlers.ReachableStoresAreValid | app.py:26-27 | every store reachable from an empty database satisfies the invariant, so every article's thread id names an existing thread |
| Handlers.NewThreadThenShow | app.py:170-182 | posting title "T", empty name and "hello" to `news`, then opening the new thread, shows exactly that one article, with the empty name kept |
| Handlers.UnknownBoardIsNotFound | app.py:155-156 | `/subback/doesnotexist` is the 404 text, even after a thread was created under that board id |
| Handlers.ShowSubbackOnKnownBoard | app.py:148-163 | every board of the shipped catalog opens its own thread list, under its own name |

## Left out

- Flask routing, `request.form` parsing, template rendering and redirects are reduced to a `Response` value. A missing form field, which raises in the source, is not modelled.
- The redirect target of `delete_article`, `url_for('index')`, is not modelled. No such endpoint is defined.
- The GET branch of `make_thread`, which returns nothing, is not modelled.
- The static and placeholder routes (`home`, the `subback` catalog page, `search`, `topics_new`, `topics_hot`, `histories`) and the `__main__` start-up are not modelled.
- SQLAlchemy and SQLite are replaced by the abstract store.
  - Primary keys come from counters that never reuse a key. The database engine's own rowid allocation is not modelled. The `number` column (app.py:20) is declared without SQLite's AUTOINCREMENT keyword, so SQLite gives a new row max(number)+1. After the newest article is deleted, SQLite can give its `number` to the next article. `PostReply` and `MakeThread` instead promise `a.number == s.nextArticleNumber`, a number never used before.
  - The two commits of `make_thread` are treated as one step. A failure between them is not modelled.
- `random.choices` entropy is a parameter, the sequence of draws. Public ids are not assumed unique.
- The `pub_date` timestamps (`datetime.now`) are not modelled.
- Listing order: the source's queries have no `order_by`. The model keeps stored order and states only which elements each listing holds and how often.
