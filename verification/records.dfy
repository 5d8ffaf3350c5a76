/** The persisted records `Article` and `Thread` (app.py:18-35) and the
    queries the handlers run on them, over an abstract store.

    The store replaces the SQLite database: two tables kept in insertion
    order plus the next primary key of each. Timestamps (`pub_date`) are
    not modelled. */
module Records {

  import opened Wrappers
  import opened Seqs
  import opened PublicId

  datatype Thread = Thread(id: nat, title: string, boardId: string)

  /** `number` is the internal primary key; `publicId` is the column the
      source calls `id`, the 8-character public id used for deletion. */
  datatype Article = Article(number: nat, name: string, message: string, publicId: string, threadId: nat)

  datatype Store = Store(threads: seq<Thread>, articles: seq<Article>, nextThreadId: nat, nextArticleNumber: nat)

  /** A freshly created database: both tables empty, keys start at 1. */
  const EmptyStore := Store([], [], 1, 1)

  predicate HasThread(threads: seq<Thread>, id: nat) {
    exists i :: 0 <= i < |threads| && threads[i].id == id
  }

  /** The invariant every reachable store keeps: primary keys strictly
      increase in storage order and lie below the next key, every article
      belongs to an existing thread, and every public id has the shape
      `generate_id(8)` gives it. */
  ghost predicate Valid(s: Store) {
    (forall i, j :: 0 <= i < j < |s.threads| ==> s.threads[i].id < s.threads[j].id)
    && (forall i :: 0 <= i < |s.threads| ==> s.threads[i].id < s.nextThreadId)
    && (forall i, j :: 0 <= i < j < |s.articles| ==> s.articles[i].number < s.articles[j].number)
    && (forall i :: 0 <= i < |s.articles| ==> s.articles[i].number < s.nextArticleNumber)
    && (forall i :: 0 <= i < |s.articles| ==> HasThread(s.threads, s.articles[i].threadId))
    && (forall i :: 0 <= i < |s.articles| ==> IsPublicId(s.articles[i].publicId))
  }

  /** `Thread.query.get(id)`: the thread whose primary key is `id`, if any. */
  function FindThread(threads: seq<Thread>, id: nat): (t: Option<Thread>)
    ensures t.None? <==> !HasThread(threads, id)
    ensures t.Some? ==> t.value in threads && t.value.id == id
  {
    if |threads| == 0 then None
    else if threads[0].id == id then Some(threads[0])
    else
      var rest := FindThread(threads[1..], id);
      assert HasThread(threads[1..], id) ==> HasThread(threads, id) by {
        if HasThread(threads[1..], id) {
          var i :| 0 <= i < |threads[1..]| && threads[1..][i].id == id;
          assert threads[i + 1].id == id;
        }
      }
      rest
  }

  /** `Article.query.filter_by(thread_id=...).all()`. */
  function ArticlesOf(s: Store, threadId: nat): (r: seq<Article>)
    ensures forall a :: a in r <==> a in s.articles && a.threadId == threadId
    ensures forall a :: multiset(r)[a] == if a.threadId == threadId then multiset(s.articles)[a] else 0
  {
    Filter(s.articles, (a: Article) => a.threadId == threadId)
  }

  /** `Thread.query.filter_by(board_id=...).all()`. */
  function ThreadsOn(s: Store, boardId: string): (r: seq<Thread>)
    ensures forall t :: t in r <==> t in s.threads && t.boardId == boardId
    ensures forall t :: multiset(r)[t] == if t.boardId == boardId then multiset(s.threads)[t] else 0
  {
    Filter(s.threads, (t: Thread) => t.boardId == boardId)
  }

  /** Number of stored articles carrying a public id. */
  function CountPublicId(articles: seq<Article>, publicId: string): nat
  {
    if |articles| == 0 then 0
    else (if articles[0].publicId == publicId then 1 else 0) + CountPublicId(articles[1..], publicId)
  }

  predicate HasPublicId(articles: seq<Article>, publicId: string) {
    exists i :: 0 <= i < |articles| && articles[i].publicId == publicId
  }

  /** Position of the article `filter_by(id=...).first()` finds: the first
      one in storage order carrying the public id. */
  function FirstWithPublicId(articles: seq<Article>, publicId: string): (k: nat)
    requires HasPublicId(articles, publicId)
    ensures k < |articles| && articles[k].publicId == publicId
    ensures forall j :: 0 <= j < k ==> articles[j].publicId != publicId
  {
    if articles[0].publicId == publicId then 0
    else
      assert HasPublicId(articles[1..], publicId) by {
        var i :| 0 <= i < |articles| && articles[i].publicId == publicId;
        assert articles[1..][i - 1].publicId == publicId;
      }
      1 + FirstWithPublicId(articles[1..], publicId)
  }

  /** Removal of the first article carrying the public id, if there is one. */
  function RemoveFirst(articles: seq<Article>, publicId: string): (r: seq<Article>)
    ensures !HasPublicId(articles, publicId) ==> r == articles
    ensures HasPublicId(articles, publicId) ==> |r| == |articles| - 1
  {
    if |articles| == 0 then articles
    else if articles[0].publicId == publicId then articles[1..]
    else
      assert HasPublicId(articles[1..], publicId) ==> HasPublicId(articles, publicId) by {
        if HasPublicId(articles[1..], publicId) {
          var i :| 0 <= i < |articles[1..]| && articles[1..][i].publicId == publicId;
          assert articles[i + 1].publicId == publicId;
        }
      }
      assert HasPublicId(articles, publicId) ==> HasPublicId(articles[1..], publicId) by {
        if HasPublicId(articles, publicId) {
          var i :| 0 <= i < |articles| && articles[i].publicId == publicId;
          assert articles[1..][i - 1].publicId == publicId;
        }
      }
      [articles[0]] + RemoveFirst(articles[1..], publicId)
  }

  /** Exactly the first matching article goes; the others keep their order. */
  lemma {:induction false} RemoveFirstRemovesFirstMatch(articles: seq<Article>, publicId: string)
    requires HasPublicId(articles, publicId)
    ensures var k := FirstWithPublicId(articles, publicId);
      RemoveFirst(articles, publicId) == articles[..k] + articles[k + 1..]
  {
    if articles[0].publicId != publicId {
      assert HasPublicId(articles[1..], publicId) by {
        var i :| 0 <= i < |articles| && articles[i].publicId == publicId;
        assert articles[1..][i - 1].publicId == publicId;
      }
      RemoveFirstRemovesFirstMatch(articles[1..], publicId);
      var k := FirstWithPublicId(articles[1..], publicId);
      assert articles[..k + 1] == [articles[0]] + articles[1..][..k];
      assert articles[k + 2..] == articles[1..][k + 1..];
    }
  }

  lemma {:induction false} CountPublicIdPositive(articles: seq<Article>, publicId: string)
    ensures CountPublicId(articles, publicId) > 0 <==> HasPublicId(articles, publicId)
  {
    if |articles| != 0 {
      CountPublicIdPositive(articles[1..], publicId);
      if HasPublicId(articles, publicId) && articles[0].publicId != publicId {
        var i :| 0 <= i < |articles| && articles[i].publicId == publicId;
        assert articles[1..][i - 1].publicId == publicId;
      }
      if HasPublicId(articles[1..], publicId) {
        var i :| 0 <= i < |articles[1..]| && articles[1..][i].publicId == publicId;
        assert articles[i + 1].publicId == publicId;
      }
    }
  }

  /** Each removal takes away exactly one article carrying the public id,
      while there is one. */
  lemma {:induction false} RemoveFirstCount(articles: seq<Article>, publicId: string)
    ensures CountPublicId(RemoveFirst(articles, publicId), publicId) ==
      if CountPublicId(articles, publicId) == 0 then 0 else CountPublicId(articles, publicId) - 1
  {
    CountPublicIdPositive(articles, publicId);
    if |articles| != 0 && articles[0].publicId != publicId {
      RemoveFirstCount(articles[1..], publicId);
      CountPublicIdPositive(articles[1..], publicId);
      var r := RemoveFirst(articles, publicId);
      if HasPublicId(articles[1..], publicId) {
        assert r == [articles[0]] + RemoveFirst(articles[1..], publicId);
        assert r[1..] == RemoveFirst(articles[1..], publicId);
      } else {
        assert r == articles;
      }
    }
  }
}
