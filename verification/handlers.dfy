/** The request handlers of the board as pure transitions on the store:
    `show_thread` (app.py:114-127), `delete_article` (app.py:131-137),
    `show_subback` (app.py:147-163) and `make_thread` (app.py:167-182).

    HTTP, form parsing, templates and redirects are reduced to a `Response`
    value; the random draws behind each new article's public id are a
    parameter (see PublicId). */
module Handlers {

  import opened Wrappers
  import opened Seqs
  import opened PublicId
  import opened Catalog
  import opened Records

  /** The name a reply gets when its form name is empty. */
  const AnonymousName: string := "名無しさん"

  /** Body of the 404 answer to an unknown board. */
  const BoardNotFoundText: string := "板が見つかりません"

  datatype Response =
    | ThreadPage(thread: Thread, articles: seq<Article>)  // thread.html
    | ThreadList(board: Board, threads: seq<Thread>)       // subback/thread_list.html
    | RedirectToThread(threadId: nat)                      // redirect to show_thread
    | ThreadNotFound                                       // get_or_404 on the thread id
    | BoardNotFound(body: string)                          // plain-text 404

  /** What a state-changing request answers, and the store after it. */
  datatype Step = Step(response: Response, store: Store)

  /** `request.form['name'] or "名無しさん"`. */
  function ReplyName(formName: string): string {
    if formName == "" then AnonymousName else formName
  }

  /** `db.session.add(Article(...))` followed by a commit: the next primary
      key and a public id from `generate_id(8)`. */
  function InsertArticle(s: Store, name: string, message: string, threadId: nat, draws: seq<int>): Store
    requires IsDraws(draws) && |draws| == DefaultLength
  {
    var a := Article(s.nextArticleNumber, name, message, GenerateId(draws), threadId);
    s.(articles := s.articles + [a], nextArticleNumber := s.nextArticleNumber + 1)
  }

  /** `db.session.add(Thread(...))` followed by a commit. */
  function InsertThread(s: Store, title: string, boardId: string): Store {
    s.(threads := s.threads + [Thread(s.nextThreadId, title, boardId)], nextThreadId := s.nextThreadId + 1)
  }

  /** GET /thread/<thread_id>: the thread and its articles, or 404. */
  function ShowThread(s: Store, threadId: nat): (r: Response)
    ensures r.ThreadPage? || r.ThreadNotFound?
    ensures r.ThreadNotFound? <==> !HasThread(s.threads, threadId)
    ensures r.ThreadPage? ==> r.thread in s.threads && r.thread.id == threadId
    ensures r.ThreadPage? ==> forall a :: a in r.articles <==> a in s.articles && a.threadId == threadId
  {
    match FindThread(s.threads, threadId)
    case None => ThreadNotFound
    case Some(t) => ThreadPage(t, ArticlesOf(s, t.id))
  }

  /** POST /thread/<thread_id>: a reply. An unknown thread is a 404 and the
      store is left as it was; otherwise exactly one article is appended. */
  function PostReply(s: Store, threadId: nat, formName: string, message: string, draws: seq<int>): (r: Step)
    requires IsDraws(draws) && |draws| == DefaultLength
    ensures !HasThread(s.threads, threadId) ==> r == Step(ThreadNotFound, s)
    ensures HasThread(s.threads, threadId) ==>
      r.response == RedirectToThread(threadId)
      && r.store.threads == s.threads
      && r.store.nextThreadId == s.nextThreadId
      && r.store.nextArticleNumber == s.nextArticleNumber + 1
      && |r.store.articles| == |s.articles| + 1
      && r.store.articles[..|s.articles|] == s.articles
    ensures HasThread(s.threads, threadId) ==>
      var a := r.store.articles[|s.articles|];
      a.number == s.nextArticleNumber && a.threadId == threadId && a.message == message
      && a.publicId == GenerateId(draws) && IsPublicId(a.publicId)
      && (formName != "" ==> a.name == formName)
      && (formName == "" ==> a.name == AnonymousName)
  {
    match FindThread(s.threads, threadId)
    case None => Step(ThreadNotFound, s)
    case Some(t) =>
      var s' := InsertArticle(s, ReplyName(formName), message, t.id, draws);
      assert s'.articles[..|s.articles|] == s.articles;
      Step(RedirectToThread(t.id), s')
  }

  /** POST /delete/<article_id>: removes the first article whose public id
      matches, or nothing. Threads are never touched. */
  function DeleteArticle(s: Store, publicId: string): (r: Store)
    ensures r.threads == s.threads
    ensures r.nextThreadId == s.nextThreadId && r.nextArticleNumber == s.nextArticleNumber
    ensures !HasPublicId(s.articles, publicId) ==> r == s
    ensures HasPublicId(s.articles, publicId) ==>
      exists k :: 0 <= k < |s.articles| && s.articles[k].publicId == publicId
        && (forall j :: 0 <= j < k ==> s.articles[j].publicId != publicId)
        && r.articles == s.articles[..k] + s.articles[k + 1..]
  {
    if HasPublicId(s.articles, publicId) then
      RemoveFirstRemovesFirstMatch(s.articles, publicId);
      s.(articles := RemoveFirst(s.articles, publicId))
    else
      s
  }

  /** GET /subback/<board_id>: the board's threads, or a 404 text when the
      catalog does not resolve the board. */
  function ShowSubback(s: Store, boardId: string): (r: Response)
    ensures r.ThreadList? || r.BoardNotFound?
    ensures r.BoardNotFound? <==> FindBoard(Categories, boardId).None?
    ensures r.BoardNotFound? ==> r.body == BoardNotFoundText
    ensures r.ThreadList? ==> r.board.id == boardId && r.board in AllBoards(Categories)
    ensures r.ThreadList? ==> forall t :: t in r.threads <==> t in s.threads && t.boardId == boardId
  {
    match FindBoard(Categories, boardId)
    case None => BoardNotFound(BoardNotFoundText)
    case Some(name) => ThreadList(Board(boardId, name), ThreadsOn(s, boardId))
  }

  /** POST /subback/<board_id>/new_thread: a thread and then its first
      article. The board id is stored as given, without a catalog check,
      and the form name is stored verbatim (no anonymous default). */
  function MakeThread(s: Store, boardId: string, title: string, formName: string, message: string, draws: seq<int>): (r: Step)
    requires IsDraws(draws) && |draws| == DefaultLength
    ensures r.response == RedirectToThread(s.nextThreadId)
    ensures r.store.nextThreadId == s.nextThreadId + 1
    ensures r.store.nextArticleNumber == s.nextArticleNumber + 1
    ensures |r.store.threads| == |s.threads| + 1 && r.store.threads[..|s.threads|] == s.threads
    ensures |r.store.articles| == |s.articles| + 1 && r.store.articles[..|s.articles|] == s.articles
    ensures r.store.threads[|s.threads|] == Thread(s.nextThreadId, title, boardId)
    ensures var a := r.store.articles[|s.articles|];
      a.number == s.nextArticleNumber && a.threadId == s.nextThreadId && a.name == formName && a.message == message
      && a.publicId == GenerateId(draws) && IsPublicId(a.publicId)
  {
    var withThread := InsertThread(s, title, boardId);
    var newId := s.nextThreadId;
    var s' := InsertArticle(withThread, formName, message, newId, draws);
    assert s'.threads[..|s.threads|] == s.threads;
    assert s'.articles[..|s.articles|] == s.articles;
    Step(RedirectToThread(newId), s')
  }

  // ---------------------------------------------------------------------
  // Listings after each transition

  /** A reply shows up at the end of its own thread's listing. */
  lemma ReplyListing(s: Store, threadId: nat, formName: string, message: string, draws: seq<int>)
    requires IsDraws(draws) && |draws| == DefaultLength
    requires HasThread(s.threads, threadId)
    ensures var s' := PostReply(s, threadId, formName, message, draws).store;
      ArticlesOf(s', threadId) == ArticlesOf(s, threadId) + [s'.articles[|s.articles|]]
  {
    var s' := PostReply(s, threadId, formName, message, draws).store;
    var a := s'.articles[|s.articles|];
    assert s'.articles == s.articles + [a];
    FilterAppend(s.articles, [a], (x: Article) => x.threadId == threadId);
  }

  /** A reply leaves every other thread's listing as it was. */
  lemma ReplyLeavesOtherListings(s: Store, threadId: nat, formName: string, message: string, draws: seq<int>, other: nat)
    requires IsDraws(draws) && |draws| == DefaultLength
    requires other != threadId
    ensures var s' := PostReply(s, threadId, formName, message, draws).store;
      ArticlesOf(s', other) == ArticlesOf(s, other)
  {
    var s' := PostReply(s, threadId, formName, message, draws).store;
    if HasThread(s.threads, threadId) {
      var a := s'.articles[|s.articles|];
      assert s'.articles == s.articles + [a];
      FilterAppend(s.articles, [a], (x: Article) => x.threadId == other);
    }
  }

  /** The new thread is found under the id the redirect names. */
  lemma MakeThreadFindable(s: Store, boardId: string, title: string, formName: string, message: string, draws: seq<int>)
    requires Valid(s)
    requires IsDraws(draws) && |draws| == DefaultLength
    ensures var s' := MakeThread(s, boardId, title, formName, message, draws).store;
      FindThread(s'.threads, s.nextThreadId) == Some(Thread(s.nextThreadId, title, boardId))
  {
    var s' := MakeThread(s, boardId, title, formName, message, draws).store;
    var found := FindThread(s'.threads, s.nextThreadId);
    assert s'.threads[|s.threads|].id == s.nextThreadId;
    var i :| 0 <= i < |s'.threads| && s'.threads[i] == found.value;
    assert i == |s.threads|;
  }

  /** On a valid store the new thread holds exactly its first article. */
  lemma MakeThreadArticles(s: Store, boardId: string, title: string, formName: string, message: string, draws: seq<int>)
    requires Valid(s)
    requires IsDraws(draws) && |draws| == DefaultLength
    ensures var s' := MakeThread(s, boardId, title, formName, message, draws).store;
      ArticlesOf(s', s.nextThreadId) == [s'.articles[|s.articles|]]
  {
    var s' := MakeThread(s, boardId, title, formName, message, draws).store;
    var a := s'.articles[|s.articles|];
    var newId := s.nextThreadId;
    assert s'.articles == s.articles + [a];
    FilterAppend(s.articles, [a], (x: Article) => x.threadId == newId);
    forall i | 0 <= i < |s.articles|
      ensures s.articles[i].threadId != newId
    {
      var j :| 0 <= j < |s.threads| && s.threads[j].id == s.articles[i].threadId;
    }
    FilterNone(s.articles, (x: Article) => x.threadId == newId);
  }

  /** Creating a thread leaves every other thread's listing as it was. */
  lemma MakeThreadLeavesOtherListings(s: Store, boardId: string, title: string, formName: string, message: string,
                                      draws: seq<int>, other: nat)
    requires IsDraws(draws) && |draws| == DefaultLength
    requires other != s.nextThreadId
    ensures var s' := MakeThread(s, boardId, title, formName, message, draws).store;
      ArticlesOf(s', other) == ArticlesOf(s, other)
  {
    var s' := MakeThread(s, boardId, title, formName, message, draws).store;
    var a := s'.articles[|s.articles|];
    assert s'.articles == s.articles + [a];
    FilterAppend(s.articles, [a], (x: Article) => x.threadId == other);
  }

  /** The new thread is appended to its board's listing; other boards'
      listings are unchanged. */
  lemma MakeThreadBoardListing(s: Store, boardId: string, title: string, formName: string, message: string,
                               draws: seq<int>, other: string)
    requires IsDraws(draws) && |draws| == DefaultLength
    ensures var s' := MakeThread(s, boardId, title, formName, message, draws).store;
      ThreadsOn(s', boardId) == ThreadsOn(s, boardId) + [Thread(s.nextThreadId, title, boardId)]
      && (other != boardId ==> ThreadsOn(s', other) == ThreadsOn(s, other))
  {
    var s' := MakeThread(s, boardId, title, formName, message, draws).store;
    var t := Thread(s.nextThreadId, title, boardId);
    assert s'.threads == s.threads + [t];
    FilterAppend(s.threads, [t], (x: Thread) => x.boardId == boardId);
    FilterAppend(s.threads, [t], (x: Thread) => x.boardId == other);
  }

  /** While at most one article carries the public id, deleting it twice is
      the same as deleting it once. */
  lemma DeleteIdempotent(s: Store, publicId: string)
    requires CountPublicId(s.articles, publicId) <= 1
    ensures DeleteArticle(DeleteArticle(s, publicId), publicId) == DeleteArticle(s, publicId)
    ensures !HasPublicId(DeleteArticle(s, publicId).articles, publicId)
  {
    var r := DeleteArticle(s, publicId);
    RemoveFirstCount(s.articles, publicId);
    CountPublicIdPositive(r.articles, publicId);
  }

  /** Once deleted, an article whose public id was its own no longer appears
      in any thread's listing. */
  lemma DeleteRemovesFromListing(s: Store, publicId: string, threadId: nat)
    requires CountPublicId(s.articles, publicId) <= 1
    ensures forall a :: a in ArticlesOf(DeleteArticle(s, publicId), threadId) ==> a.publicId != publicId
  {
    DeleteIdempotent(s, publicId);
  }

  /** Public ids are not unique, so with two articles sharing one, a second
      delete removes the second article: deletion is idempotent only per
      stored article, not per public id. */
  lemma DeleteWithSharedPublicId()
    ensures var a1 := Article(1, "a", "x", "AAAAAAAA", 1);
      var a2 := Article(2, "b", "y", "AAAAAAAA", 1);
      var s := Store([Thread(1, "t", "news")], [a1, a2], 2, 3);
      DeleteArticle(s, "AAAAAAAA").articles == [a2]
      && DeleteArticle(DeleteArticle(s, "AAAAAAAA"), "AAAAAAAA").articles == []
  {
    var a1 := Article(1, "a", "x", "AAAAAAAA", 1);
    var a2 := Article(2, "b", "y", "AAAAAAAA", 1);
    assert [a1, a2][0].publicId == "AAAAAAAA";
    assert [a2][0].publicId == "AAAAAAAA";
  }

  // ---------------------------------------------------------------------
  // The store invariant

  lemma PostReplyKeepsValid(s: Store, threadId: nat, formName: string, message: string, draws: seq<int>)
    requires Valid(s)
    requires IsDraws(draws) && |draws| == DefaultLength
    ensures Valid(PostReply(s, threadId, formName, message, draws).store)
  {
    var s' := PostReply(s, threadId, formName, message, draws).store;
    if HasThread(s.threads, threadId) {
      var a := s'.articles[|s.articles|];
      assert s'.articles == s.articles + [a];
      assert HasThread(s'.threads, a.threadId);
    }
  }

  lemma MakeThreadKeepsValid(s: Store, boardId: string, title: string, formName: string, message: string, draws: seq<int>)
    requires Valid(s)
    requires IsDraws(draws) && |draws| == DefaultLength
    ensures Valid(MakeThread(s, boardId, title, formName, message, draws).store)
  {
    var s' := MakeThread(s, boardId, title, formName, message, draws).store;
    var a := s'.articles[|s.articles|];
    assert s'.threads == s.threads + [Thread(s.nextThreadId, title, boardId)];
    assert s'.articles == s.articles + [a];
    assert HasThread(s'.threads, a.threadId) by {
      assert s'.threads[|s.threads|].id == a.threadId;
    }
    forall i | 0 <= i < |s'.articles|
      ensures HasThread(s'.threads, s'.articles[i].threadId)
    {
      if i < |s.articles| {
        var j :| 0 <= j < |s.threads| && s.threads[j].id == s.articles[i].threadId;
        assert s'.threads[j] == s.threads[j];
      }
    }
  }

  lemma DeleteKeepsValid(s: Store, publicId: string)
    requires Valid(s)
    ensures Valid(DeleteArticle(s, publicId))
  {
    var r := DeleteArticle(s, publicId);
    if HasPublicId(s.articles, publicId) {
      var k :| 0 <= k < |s.articles| && r.articles == s.articles[..k] + s.articles[k + 1..];
      RemovalKeepsArticleInvariant(s, k, r);
    }
  }

  /** Dropping the article at position `k` keeps every article-side part of
      the invariant: what remains is an order-preserving sub-sequence. */
  lemma RemovalKeepsArticleInvariant(s: Store, k: nat, r: Store)
    requires Valid(s)
    requires k < |s.articles|
    requires r.threads == s.threads && r.nextThreadId == s.nextThreadId && r.nextArticleNumber == s.nextArticleNumber
    requires r.articles == s.articles[..k] + s.articles[k + 1..]
    ensures Valid(r)
  {
    var a := s.articles;
    var b := r.articles;
    assert |b| == |a| - 1;
    assert forall i :: 0 <= i < |b| ==> b[i] == a[if i < k then i else i + 1];
    forall i, j | 0 <= i < j < |b|
      ensures b[i].number < b[j].number
    {
      var i' := if i < k then i else i + 1;
      var j' := if j < k then j else j + 1;
      assert b[i] == a[i'] && b[j] == a[j'] && i' < j';
    }
  }

  /** A request that changes the store, with the random draws its new
      article's public id is built from. */
  datatype Request =
    | Reply(threadId: nat, name: string, message: string, draws: seq<int>)
    | NewThread(boardId: string, title: string, name: string, message: string, draws: seq<int>)
    | Delete(publicId: string)

  predicate WellDrawn(q: Request) {
    match q
    case Reply(_, _, _, draws) => IsDraws(draws) && |draws| == DefaultLength
    case NewThread(_, _, _, _, draws) => IsDraws(draws) && |draws| == DefaultLength
    case Delete(_) => true
  }

  function Apply(s: Store, q: Request): Store
    requires WellDrawn(q)
  {
    match q
    case Reply(threadId, name, message, draws) => PostReply(s, threadId, name, message, draws).store
    case NewThread(boardId, title, name, message, draws) => MakeThread(s, boardId, title, name, message, draws).store
    case Delete(publicId) => DeleteArticle(s, publicId)
  }

  /** The store after serving the requests in order. */
  function Run(s: Store, qs: seq<Request>): Store
    requires forall i :: 0 <= i < |qs| ==> WellDrawn(qs[i])
    decreases |qs|
  {
    if |qs| == 0 then s else Run(Apply(s, qs[0]), qs[1..])
  }

  /** Every store the handlers can reach from a fresh database is valid: in
      particular every article's thread id names an existing thread, because
      no handler ever deletes a thread. */
  lemma {:induction false} RunKeepsValid(s: Store, qs: seq<Request>)
    requires Valid(s)
    requires forall i :: 0 <= i < |qs| ==> WellDrawn(qs[i])
    ensures Valid(Run(s, qs))
    decreases |qs|
  {
    if |qs| != 0 {
      match qs[0] {
        case Reply(threadId, name, message, draws) =>
          PostReplyKeepsValid(s, threadId, name, message, draws);
        case NewThread(boardId, title, name, message, draws) =>
          MakeThreadKeepsValid(s, boardId, title, name, message, draws);
        case Delete(publicId) =>
          DeleteKeepsValid(s, publicId);
      }
      RunKeepsValid(Apply(s, qs[0]), qs[1..]);
    }
  }

  lemma ReachableStoresAreValid(qs: seq<Request>)
    requires forall i :: 0 <= i < |qs| ==> WellDrawn(qs[i])
    ensures Valid(Run(EmptyStore, qs))
  {
    RunKeepsValid(EmptyStore, qs);
  }

  // ---------------------------------------------------------------------
  // End-to-end scenarios

  /** Every board of the shipped catalog opens its own thread list. */
  lemma ShowSubbackOnKnownBoard(s: Store, b: Board)
    requires exists c :: c in Categories && b in c.boards
    ensures ShowSubback(s, b.id) == ThreadList(b, ThreadsOn(s, b.id))
  {
    FindBoardInCategories(b.id, b.name);
  }

  /** Posting a new thread on `news` with an empty name: the thread page then
      shows that one article, under the empty name the form sent. */
  lemma NewThreadThenShow(s: Store, draws: seq<int>)
    requires Valid(s)
    requires IsDraws(draws) && |draws| == DefaultLength
    ensures var s' := MakeThread(s, "news", "T", "", "hello", draws).store;
      ShowThread(s', s.nextThreadId) ==
        ThreadPage(Thread(s.nextThreadId, "T", "news"),
                   [Article(s.nextArticleNumber, "", "hello", GenerateId(draws), s.nextThreadId)])
  {
    MakeThreadFindable(s, "news", "T", "", "hello", draws);
    MakeThreadArticles(s, "news", "T", "", "hello", draws);
  }

  /** An unknown board is a 404 whatever the store holds, even when a thread
      was created under that board id (make_thread does not check it). */
  lemma UnknownBoardIsNotFound(s: Store, draws: seq<int>)
    requires IsDraws(draws) && |draws| == DefaultLength
    ensures ShowSubback(s, "doesnotexist") == BoardNotFound(BoardNotFoundText)
    ensures var s' := MakeThread(s, "doesnotexist", "T", "n", "m", draws).store;
      HasThread(s'.threads, s.nextThreadId) && ShowSubback(s', "doesnotexist") == BoardNotFound(BoardNotFoundText)
  {
    UnknownBoardId();
    var s' := MakeThread(s, "doesnotexist", "T", "n", "m", draws).store;
    assert s'.threads[|s.threads|].id == s.nextThreadId;
  }
}
