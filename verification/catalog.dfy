/** The static board catalog `categories` (app.py:39-104) and the board
    lookup loop of `show_subback` (app.py:148-156). */
module Catalog {

  import opened Wrappers

  datatype Board = Board(id: string, name: string)

  datatype Category = Category(name: string, boards: seq<Board>)

  /** The compiled-in catalog, category by category, in source order. */
  const Categories: seq<Category> := [
    Category("ニュース・時事", [
      Board("news", "ニュース速報"),
      Board("politics", "政治"),
      Board("economy", "経済")]),
    Category("生活", [
      Board("chat", "雑談"),
      Board("gourmet", "料理・グルメ"),
      Board("health", "健康・医療")]),
    Category("趣味・娯楽", [
      Board("anime", "アニメ"),
      Board("games", "ゲーム"),
      Board("movies", "映画")]),
    Category("学問・技術", [
      Board("programming", "プログラミング"),
      Board("science", "科学"),
      Board("math", "数学")]),
    Category("芸能・音楽", [
      Board("idols", "アイドル"),
      Board("music", "音楽"),
      Board("drama", "ドラマ")]),
    Category("スポーツ", [
      Board("baseball", "野球"),
      Board("soccer", "サッカー"),
      Board("sports_gen", "スポーツ全般")]),
    Category("旅行・地域", [
      Board("travel", "旅行"),
      Board("local", "地域情報"),
      Board("overseas", "海外")]),
    Category("相談・その他", [
      Board("advice", "人生相談"),
      Board("school", "学校生活"),
      Board("tech_support", "技術的な質問")])
  ]

  /** Every board of the catalog in category/board order. */
  function AllBoards(cats: seq<Category>): (bs: seq<Board>)
    ensures forall b :: b in bs <==> exists c :: c in cats && b in c.boards
  {
    if |cats| == 0 then [] else cats[0].boards + AllBoards(cats[1..])
  }

  predicate HasBoardId(bs: seq<Board>, boardId: string) {
    exists i :: 0 <= i < |bs| && bs[i].id == boardId
  }

  /** Board ids are distinct and every board has a non-empty display name. */
  predicate WellFormed(cats: seq<Category>) {
    var bs := AllBoards(cats);
    (forall i, j :: 0 <= i < j < |bs| ==> bs[i].id != bs[j].id)
    && (forall i :: 0 <= i < |bs| ==> bs[i].name != "")
  }

  /** The inner loop over one category's boards: the first board with the id,
      after which `break` leaves this inner loop only. */
  function ScanBoards(bs: seq<Board>, boardId: string): (found: Option<string>)
    ensures found.None? <==> !HasBoardId(bs, boardId)
    ensures found.Some? ==>
      exists i :: 0 <= i < |bs| && bs[i] == Board(boardId, found.value)
        && forall j :: 0 <= j < i ==> bs[j].id != boardId
  {
    if |bs| == 0 then None
    else if bs[0].id == boardId then Some(bs[0].name)
    else
      var rest := ScanBoards(bs[1..], boardId);
      assert rest.Some? ==>
        exists i :: 1 <= i < |bs| && bs[i] == Board(boardId, rest.value) && forall j :: 1 <= j < i ==> bs[j].id != boardId;
      rest
  }

  /** The outer loop over categories. The `break` does not leave it, so each
      later category that also holds the id overwrites `board_name`: the name
      kept is the one found in the LAST category holding the id. */
  function ScanCategories(cats: seq<Category>, boardId: string, boardName: Option<string>): Option<string>
    decreases |cats|
  {
    if |cats| == 0 then boardName
    else
      var found := ScanBoards(cats[0].boards, boardId);
      ScanCategories(cats[1..], boardId, if found.Some? then found else boardName)
  }

  /** The board lookup of `show_subback`. `if not board_name` treats a missing
      name and an empty name alike: both are "board not found". */
  function FindBoard(cats: seq<Category>, boardId: string): (name: Option<string>)
    ensures name.Some? ==> name.value != "" && Board(boardId, name.value) in AllBoards(cats)
    ensures name.None? && WellFormed(cats) ==> !HasBoardId(AllBoards(cats), boardId)
  {
    ScanCategoriesSound(cats, boardId, None);
    ScanCategoriesOnWellFormed(cats, boardId, None);
    var n := ScanCategories(cats, boardId, None);
    if n.None? || n.value == "" then None else n
  }

  /** Whatever the outer loop keeps is either its starting value or the name
      of a board of the catalog that carries the id. */
  lemma {:induction false} ScanCategoriesSound(cats: seq<Category>, boardId: string, boardName: Option<string>)
    ensures var n := ScanCategories(cats, boardId, boardName);
      n == boardName || (n.Some? && Board(boardId, n.value) in AllBoards(cats))
  {
    if |cats| != 0 {
      var found := ScanBoards(cats[0].boards, boardId);
      ScanCategoriesSound(cats[1..], boardId, if found.Some? then found else boardName);
      assert AllBoards(cats) == cats[0].boards + AllBoards(cats[1..]);
    }
  }

  /** The first board of `bs` carrying the id: an independent, single-pass
      reading of "find the board". */
  function FirstMatch(bs: seq<Board>, boardId: string): Option<string>
  {
    if |bs| == 0 then None
    else if bs[0].id == boardId then Some(bs[0].name)
    else FirstMatch(bs[1..], boardId)
  }

  lemma {:induction false} FirstMatchAppend(a: seq<Board>, b: seq<Board>, boardId: string)
    ensures FirstMatch(a + b, boardId) ==
      if HasBoardId(a, boardId) then FirstMatch(a, boardId) else FirstMatch(b, boardId)
  {
    if |a| != 0 {
      assert (a + b)[1..] == a[1..] + b;
      FirstMatchAppend(a[1..], b, boardId);
      assert HasBoardId(a, boardId) <==> a[0].id == boardId || HasBoardId(a[1..], boardId) by {
        if HasBoardId(a, boardId) && a[0].id != boardId {
          var i :| 0 <= i < |a| && a[i].id == boardId;
          assert a[1..][i - 1].id == boardId;
        }
      }
    } else {
      assert a + b == b;
    }
  }

  lemma {:induction false} NoMatchInLater(cats: seq<Category>, boardId: string)
    requires forall i, j :: 0 <= i < j < |AllBoards(cats)| ==> AllBoards(cats)[i].id != AllBoards(cats)[j].id
    requires |cats| != 0 && HasBoardId(cats[0].boards, boardId)
    ensures !HasBoardId(AllBoards(cats[1..]), boardId)
  {
    var bs := AllBoards(cats);
    var n := |cats[0].boards|;
    assert bs == cats[0].boards + AllBoards(cats[1..]);
    var rest := AllBoards(cats[1..]);
    var i :| 0 <= i < n && cats[0].boards[i].id == boardId;
    assert bs[i].id == boardId;
    forall j | 0 <= j < |rest|
      ensures rest[j].id != boardId
    {
      assert rest[j] == bs[n + j];
    }
  }

  /** On a catalog with distinct ids, the last-category-wins scan agrees with
      the first match in category/board order. */
  lemma {:induction false} ScanCategoriesOnDistinctIds(cats: seq<Category>, boardId: string, boardName: Option<string>)
    requires forall i, j :: 0 <= i < j < |AllBoards(cats)| ==> AllBoards(cats)[i].id != AllBoards(cats)[j].id
    ensures ScanCategories(cats, boardId, boardName) ==
      if HasBoardId(AllBoards(cats), boardId) then FirstMatch(AllBoards(cats), boardId) else boardName
  {
    if |cats| != 0 {
      var bs := AllBoards(cats);
      var rest := AllBoards(cats[1..]);
      assert bs == cats[0].boards + rest;
      FirstMatchAppend(cats[0].boards, rest, boardId);
      var found := ScanBoards(cats[0].boards, boardId);
      assert forall i, j :: 0 <= i < j < |rest| ==> rest[i].id != rest[j].id by {
        forall i, j | 0 <= i < j < |rest|
          ensures rest[i].id != rest[j].id
        {
          assert rest[i] == bs[|cats[0].boards| + i] && rest[j] == bs[|cats[0].boards| + j];
        }
      }
      ScanCategoriesOnDistinctIds(cats[1..], boardId, if found.Some? then found else boardName);
      FirstMatchIsScan(cats[0].boards, boardId);
      if HasBoardId(cats[0].boards, boardId) {
        NoMatchInLater(cats, boardId);
        var k :| 0 <= k < |cats[0].boards| && cats[0].boards[k].id == boardId;
        assert bs[k].id == boardId;
      } else {
        assert HasBoardId(bs, boardId) <==> HasBoardId(rest, boardId) by {
          if HasBoardId(bs, boardId) {
            var k :| 0 <= k < |bs| && bs[k].id == boardId;
            assert k >= |cats[0].boards|;
            assert rest[k - |cats[0].boards|].id == boardId;
          }
          if HasBoardId(rest, boardId) {
            var k :| 0 <= k < |rest| && rest[k].id == boardId;
            assert bs[|cats[0].boards| + k].id == boardId;
          }
        }
      }
    }
  }

  lemma {:induction false} FirstMatchIsScan(bs: seq<Board>, boardId: string)
    ensures FirstMatch(bs, boardId) == ScanBoards(bs, boardId)
  {
    if |bs| != 0 {
      FirstMatchIsScan(bs[1..], boardId);
    }
  }

  lemma ScanCategoriesOnWellFormed(cats: seq<Category>, boardId: string, boardName: Option<string>)
    ensures WellFormed(cats) && boardName.None? ==>
      (ScanCategories(cats, boardId, boardName).None? <==> !HasBoardId(AllBoards(cats), boardId))
  {
    if WellFormed(cats) && boardName.None? {
      ScanCategoriesOnDistinctIds(cats, boardId, boardName);
      FirstMatchIsScan(AllBoards(cats), boardId);
    }
  }

  /** On a well-formed catalog the lookup succeeds exactly for the ids the
      catalog lists, and yields that board's display name. */
  lemma FindBoardOnWellFormed(cats: seq<Category>, boardId: string, name: string)
    requires WellFormed(cats)
    ensures FindBoard(cats, boardId) == Some(name) <==> Board(boardId, name) in AllBoards(cats)
    ensures FindBoard(cats, boardId).Some? <==> HasBoardId(AllBoards(cats), boardId)
    ensures FindBoard(cats, boardId) == FirstMatch(AllBoards(cats), boardId)
  {
    var bs := AllBoards(cats);
    ScanCategoriesOnDistinctIds(cats, boardId, None);
    FirstMatchIsScan(bs, boardId);
    if Board(boardId, name) in bs {
      var k :| 0 <= k < |bs| && bs[k] == Board(boardId, name);
      var m := ScanBoards(bs, boardId);
      var i :| 0 <= i < |bs| && bs[i] == Board(boardId, m.value);
      assert i == k;
    }
  }

  /** The shipped catalog flattened by hand, category by category; it serves
      only the proofs below, which are cheaper on one flat sequence, and
      FlattenedCategories proves it equal to AllBoards(Categories). */
  function FlatCatalog(): seq<Board> {
    [
    Board("news", "ニュース速報"),
    Board("politics", "政治"),
    Board("economy", "経済"),
    Board("chat", "雑談"),
    Board("gourmet", "料理・グルメ"),
    Board("health", "健康・医療"),
    Board("anime", "アニメ"),
    Board("games", "ゲーム"),
    Board("movies", "映画"),
    Board("programming", "プログラミング"),
    Board("science", "科学"),
    Board("math", "数学"),
    Board("idols", "アイドル"),
    Board("music", "音楽"),
    Board("drama", "ドラマ"),
    Board("baseball", "野球"),
    Board("soccer", "サッカー"),
    Board("sports_gen", "スポーツ全般"),
    Board("travel", "旅行"),
    Board("local", "地域情報"),
    Board("overseas", "海外"),
    Board("advice", "人生相談"),
    Board("school", "学校生活"),
    Board("tech_support", "技術的な質問")]
  }

  lemma FlattenedCategories()
    ensures AllBoards(Categories) == FlatCatalog()
  {
    var cs := Categories;
    assert AllBoards(cs[7..]) == cs[7].boards;
    assert AllBoards(cs[6..]) == cs[6].boards + AllBoards(cs[7..]);
    assert AllBoards(cs[5..]) == cs[5].boards + AllBoards(cs[6..]);
    assert AllBoards(cs[4..]) == cs[4].boards + AllBoards(cs[5..]);
    assert AllBoards(cs[3..]) == cs[3].boards + AllBoards(cs[4..]);
    assert AllBoards(cs[2..]) == cs[2].boards + AllBoards(cs[3..]);
    assert AllBoards(cs[1..]) == cs[1].boards + AllBoards(cs[2..]);
    assert AllBoards(cs) == cs[0].boards + AllBoards(cs[1..]);
  }

  /** Distinct ids, checked for the boards at positions `lo` to `hi - 1` of
      the flattened catalog against every later board. */
  predicate DistinctFrom(lo: nat, hi: nat) {
    forall i, j :: lo <= i < hi && i < j < |FlatCatalog()| ==> FlatCatalog()[i].id != FlatCatalog()[j].id
  }

  lemma DistinctFromFirstQuarter()
    ensures DistinctFrom(0, 6)
  {
    var flat := FlatCatalog();
    assert forall i, j :: 0 <= i < 6 && i < j < |flat| ==> flat[i].id != flat[j].id;
  }

  lemma DistinctFromSecondQuarter()
    ensures DistinctFrom(6, 12)
  {
    var flat := FlatCatalog();
    assert forall i, j :: 6 <= i < 12 && i < j < |flat| ==> flat[i].id != flat[j].id;
  }

  lemma DistinctFromThirdQuarter()
    ensures DistinctFrom(12, 18)
  {
    var flat := FlatCatalog();
    assert forall i, j :: 12 <= i < 18 && i < j < |flat| ==> flat[i].id != flat[j].id;
  }

  lemma DistinctFromLastQuarter()
    ensures DistinctFrom(18, 24)
  {
    var flat := FlatCatalog();
    assert forall i, j :: 18 <= i < 24 && i < j < |flat| ==> flat[i].id != flat[j].id;
  }

  lemma FlatCatalogDistinctIds()
    ensures forall i, j :: 0 <= i < j < |FlatCatalog()| ==> FlatCatalog()[i].id != FlatCatalog()[j].id
  {
    DistinctFromFirstQuarter();
    DistinctFromSecondQuarter();
    DistinctFromThirdQuarter();
    DistinctFromLastQuarter();
    assert |FlatCatalog()| == 24;
  }

  lemma FlatCatalogNamed()
    ensures forall i :: 0 <= i < |FlatCatalog()| ==> FlatCatalog()[i].name != ""
  {
    var flat := FlatCatalog();
    assert forall i :: 0 <= i < |flat| ==> flat[i].name != "";
  }

  /** The shipped catalog is well formed: its 24 board ids are distinct and
      every board has a display name. */
  lemma CategoriesWellFormed()
    ensures WellFormed(Categories)
    ensures |AllBoards(Categories)| == 24
  {
    FlattenedCategories();
    FlatCatalogDistinctIds();
    FlatCatalogNamed();
  }

  /** With the shipped catalog, `/subback/<board_id>` finds a board exactly
      when some category lists that id, and shows that board's name. */
  lemma FindBoardInCategories(boardId: string, name: string)
    ensures FindBoard(Categories, boardId) == Some(name) <==>
      exists c, b :: c in Categories && b in c.boards && b == Board(boardId, name)
    ensures FindBoard(Categories, boardId).None? <==>
      forall c, b :: c in Categories && b in c.boards ==> b.id != boardId
  {
    CategoriesWellFormed();
    FindBoardOnWellFormed(Categories, boardId, name);
    var bs := AllBoards(Categories);
    if FindBoard(Categories, boardId).None? {
      forall c, b | c in Categories && b in c.boards
        ensures b.id != boardId
      {
        assert b in bs;
      }
    } else {
      var n := FindBoard(Categories, boardId).value;
      FindBoardOnWellFormed(Categories, boardId, n);
    }
  }

  lemma FlatCatalogLacksUnknownId()
    ensures !HasBoardId(FlatCatalog(), "doesnotexist")
  {
    var flat := FlatCatalog();
    assert forall i :: 0 <= i < |flat| ==> flat[i].id != "doesnotexist";
  }

  /** An id no category lists is "board not found". */
  lemma UnknownBoardId()
    ensures FindBoard(Categories, "doesnotexist") == None
  {
    CategoriesWellFormed();
    FlattenedCategories();
    FlatCatalogLacksUnknownId();
    FindBoardOnWellFormed(Categories, "doesnotexist", "");
  }

  /** The loop as written: when two categories list the same id, the LATER
      category's board name is the one shown. */
  lemma LaterCategoryWins()
    ensures FindBoard([Category("x", [Board("b", "first")]), Category("y", [Board("b", "second")])], "b")
      == Some("second")
  {
  }

  /** `if not board_name` rejects a listed board whose name is empty. */
  lemma EmptyNameIsNotFound()
    ensures FindBoard([Category("x", [Board("b", "")])], "b") == None
  {
  }
}
