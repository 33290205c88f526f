/** The settings page's block list: unblocking one entry and loading the list page by
    page (30 entries, newest first) with an `untilId` cursor. */
module BlockTable {
  import opened Wrappers
  import Lists

  const PageLimit: nat := 30
  const PageSort := "DESC"
  const ErrorTitle := "エラー"
  const ErrorBodyPrefix := "ブロック解除中にエラーが発生しました！ "

  datatype Block = Block(id: string, targetHandle: string)

  /** The table's state: the entries shown, the cursor, the loading flag and the text
      of the result modal. */
  datatype TableState = TableState(
    blockList: seq<Block>, untilId: Option<string>, loading: bool, modalTitle: string, modalBody: string)

  const InitialTable := TableState([], None, true, "完了", "ブロックが解除されました！")

  function KeepBlock(id: string): Block -> bool
  {
    (b: Block) => b.id != id
  }

  /** `doUnBlock` once the server replied: on success every entry with that id goes and
      the rest keep their order; on failure the list stays and the modal shows the
      error. Loading ends either way. */
  function Unblock(s: TableState, id: string, ok: bool, errorText: string): (r: TableState)
    ensures !r.loading && r.untilId == s.untilId
    ensures ok ==>
      && (forall i :: 0 <= i < |r.blockList| ==> r.blockList[i].id != id && r.blockList[i] in s.blockList)
      && (forall i :: 0 <= i < |s.blockList| && s.blockList[i].id != id ==> s.blockList[i] in r.blockList)
      && Lists.IsSubsequence(r.blockList, s.blockList)
      && (forall b :: multiset(r.blockList)[b] == (if b.id != id then multiset(s.blockList)[b] else 0))
      && r.modalTitle == s.modalTitle && r.modalBody == s.modalBody
    ensures !ok ==> r.blockList == s.blockList && r.modalTitle == ErrorTitle && r.modalBody == ErrorBodyPrefix + errorText
  {
    if !ok then s.(loading := false, modalTitle := ErrorTitle, modalBody := ErrorBodyPrefix + errorText)
    else
      Lists.FilterKeepsOrder(s.blockList, KeepBlock(id));
      Lists.FilterMultiset(s.blockList, KeepBlock(id));
      s.(blockList := Lists.Filter(s.blockList, KeepBlock(id)), loading := false)
  }

  /** Unblocking the same id twice leaves the list as unblocking it once. */
  lemma UnblockIdempotent(s: TableState, id: string, e: string)
    ensures Unblock(Unblock(s, id, true, e), id, true, e).blockList == Unblock(s, id, true, e).blockList
  {
    Lists.FilterIdempotent(s.blockList, KeepBlock(id));
  }

  /** `GetBlockListReqDto`. */
  datatype BlockListReq = BlockListReq(limit: nat, untilId: Option<string>, sort: string)

  /** The page request: always 30 entries, newest first; the cursor is sent only when
      it is set and non-empty. */
  function PageRequest(untilId: Option<string>): (q: BlockListReq)
    ensures q.limit == PageLimit && q.sort == PageSort
    ensures q.untilId.Some? <==> untilId.Some? && untilId.value != ""
    ensures q.untilId.Some? ==> q.untilId == untilId
  {
    BlockListReq(PageLimit, if untilId.Some? && untilId.value != "" then untilId else None, PageSort)
  }

  /** A page arrives (`None`: the fetch failed and nothing happens). An empty page ends
      loading; a non-empty one is appended and moves the cursor to its last entry. */
  function OnPage(s: TableState, page: Option<seq<Block>>): (r: TableState)
    ensures page.None? ==> r == s
    ensures page == Some([]) ==> r == s.(loading := false)
    ensures page.Some? && page.value != [] ==>
      && r.blockList == s.blockList + page.value
      && r.untilId == Some(page.value[|page.value| - 1].id)
      && r.loading == s.loading
  {
    match page
    case None => s
    case Some(p) =>
      if p == [] then s.(loading := false)
      else s.(blockList := s.blockList + p, untilId := Some(p[|p| - 1].id))
  }

  function Concat(pages: seq<seq<Block>>): seq<Block>
  {
    if pages == [] then [] else pages[0] + Concat(pages[1..])
  }

  function LoadPages(s: TableState, pages: seq<seq<Block>>): TableState
    decreases |pages|
  {
    if pages == [] then s else LoadPages(OnPage(s, Some(pages[0])), pages[1..])
  }

  /** Loading non-empty pages one after another shows them in order after what was
      there, keeps loading on, and leaves the cursor at the last entry of the last page. */
  lemma {:induction false} PagesAppendInOrder(s: TableState, pages: seq<seq<Block>>)
    requires forall i :: 0 <= i < |pages| ==> pages[i] != []
    ensures LoadPages(s, pages).blockList == s.blockList + Concat(pages)
    ensures LoadPages(s, pages).loading == s.loading
    ensures pages != [] ==>
      LoadPages(s, pages).untilId == Some(Lists.Last(pages[|pages| - 1]).id)
    decreases |pages|
  {
    if pages != [] {
      var next := OnPage(s, Some(pages[0]));
      PagesAppendInOrder(next, pages[1..]);
      assert s.blockList + pages[0] + Concat(pages[1..]) == s.blockList + (pages[0] + Concat(pages[1..]));
      if |pages| > 1 {
        assert pages[1..][|pages[1..]| - 1] == pages[|pages| - 1];
      }
    }
  }
}
