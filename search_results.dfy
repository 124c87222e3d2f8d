/** src/components/SearchResults.tsx: the result list's pure display rules
    (date buckets, icon colour, which branch renders, how many highlights
    show) and the context menu's state. The current time and the window size
    are parameters. */
module SearchResultsView {
  import opened Wrappers
  import opened Strings
  import opened Types

  const DayMs := 1000 * 60 * 60 * 24

  function Abs(x: int): nat {
    if x < 0 then -x else x
  }

  /** `Math.ceil(Math.abs(now - ts) / 86400000)`, in exact integer arithmetic. */
  function DiffDays(now: int, ts: int): (days: nat)
    ensures days == 0 <==> now == ts
    ensures days > 0 ==> (days - 1) * DayMs < Abs(now - ts) <= days * DayMs
  {
    var d := Abs(now - ts);
    (d + DayMs - 1) / DayMs
  }

  /** The day count does not depend on which side of now the timestamp lies. */
  lemma DiffDaysSymmetric(now: int, ts: int)
    ensures DiffDays(now, ts) == DiffDays(ts, now)
  {
    assert Abs(now - ts) == Abs(ts - now);
  }

  /** The label formatDate picks. */
  datatype DateLabel = Today | Yesterday | DaysAgo(days: nat) | LocaleDate(ts: int)

  /** formatDate: the label for the rounded-up number of whole days between
      now and the timestamp, in either direction. */
  function FormatDate(now: int, ts: int): (r: DateLabel)
    ensures r.DaysAgo? ==> 2 <= r.days <= 6
    ensures r.LocaleDate? ==> r.ts == ts && DiffDays(now, ts) >= 7
  {
    var days := DiffDays(now, ts);
    if days == 0 then Today
    else if days == 1 then Yesterday
    else if days < 7 then DaysAgo(days)
    else LocaleDate(ts)
  }

  /** The buckets by distance: "today" only at the same millisecond, "yesterday"
      up to one day away, "N days ago" up to six days (N the rounded-up day
      count, 2 to 6), and the date beyond that, in either direction. */
  lemma FormatDateBuckets(now: int, ts: int)
    ensures FormatDate(now, ts) == Today <==> ts == now
    ensures FormatDate(now, ts) == Yesterday <==> 0 < Abs(now - ts) <= DayMs
    ensures FormatDate(now, ts).DaysAgo? <==> DayMs < Abs(now - ts) <= 6 * DayMs
    ensures FormatDate(now, ts).DaysAgo? ==> 2 <= FormatDate(now, ts).days <= 6
                                             && (FormatDate(now, ts).days - 1) * DayMs < Abs(now - ts) <= FormatDate(now, ts).days * DayMs
    ensures FormatDate(now, ts).LocaleDate? <==> Abs(now - ts) > 6 * DayMs
  {
    var days := DiffDays(now, ts);
    if days >= 7 {
      assert 6 * DayMs <= (days - 1) * DayMs;
    } else if days >= 2 {
      assert DayMs <= (days - 1) * DayMs;
      assert days * DayMs <= 6 * DayMs;
    }
  }

  datatype IconColor = Blue | Grey

  /** getFileIcon: txt, md, doc and docx in any letter case are blue. */
  function IconFor(fileType: string): (c: IconColor)
    ensures c == Blue <==> Lower(fileType) in {"txt", "md", "doc", "docx"}
  {
    match Lower(fileType)
    case "txt" => Blue
    case "md" => Blue
    case "doc" => Blue
    case "docx" => Blue
    case _ => Grey
  }

  lemma LowerIdempotent(s: string)
    ensures Lower(Lower(s)) == Lower(s)
  {
    assert forall i :: 0 <= i < |s| ==> LowerChar(LowerChar(s[i])) == LowerChar(s[i]);
  }

  /** The colour depends only on the lower-cased type. */
  lemma IconIgnoresCase(fileType: string)
    ensures IconFor(fileType) == IconFor(Lower(fileType))
  {
    LowerIdempotent(fileType);
  }

  /** Which part of the component renders. */
  datatype Branch = Loading | StartPrompt | NoResults | ResultList

  function RenderBranch(isLoading: bool, query: string, results: seq<SearchResult>): (b: Branch)
    ensures b == Loading <==> isLoading
    ensures b == StartPrompt <==> !isLoading && query == ""
    ensures b == NoResults <==> !isLoading && query != "" && results == []
    ensures b == ResultList <==> !isLoading && query != "" && results != []
  {
    if isLoading then Loading
    else if query == "" then StartPrompt
    else if |results| == 0 then NoResults
    else ResultList
  }

  /** `highlights.slice(0, 2)`. */
  function ShownHighlights(hs: seq<string>): (shown: seq<string>)
    ensures |shown| <= 2
    ensures |shown| == if |hs| < 2 then |hs| else 2
    ensures shown <= hs
  {
    if |hs| <= 2 then hs else hs[..2]
  }

  /** What a menu click does with the selected item's path. */
  datatype MenuAction = RevealInFolder | OpenWithSystem

  /** The context menu state: position, visibility and the result it is for. */
  class ContextMenu {
    var x: int
    var y: int
    var visible: bool
    var item: Option<SearchResult>

    constructor ()
      ensures x == 0 && y == 0 && !visible && item.None?
    {
      x, y, visible, item := 0, 0, false, None;
    }

    /** The menu shows only while visible and holding an item. */
    predicate Shown()
      reads this
    {
      visible && item.Some?
    }

    /** A right-click opens the menu at the cursor, pulled left and up so
        that the 180 × 100 menu stays inside the window. */
    method Open(clientX: int, clientY: int, innerWidth: int, innerHeight: int, result: SearchResult)
      modifies this
      ensures x <= innerWidth - 180 && y <= innerHeight - 100
      ensures x <= clientX && y <= clientY
      ensures clientX <= innerWidth - 180 ==> x == clientX
      ensures clientY <= innerHeight - 100 ==> y == clientY
      ensures x == Min(clientX, innerWidth - 180) && y == Min(clientY, innerHeight - 100)
      ensures Shown() && item == Some(result)
    {
      x := Min(clientX, innerWidth - 180);
      y := Min(clientY, innerHeight - 100);
      visible := true;
      item := Some(result);
    }

    /** A click anywhere or Escape hides the menu; position and item stay. */
    method Hide()
      modifies this`visible
      ensures !visible && !Shown()
    {
      visible := false;
    }

    /** A menu entry acts on the item's path, if there is an item, and hides the menu. */
    method Choose(action: MenuAction) returns (target: Option<(MenuAction, string)>)
      modifies this`visible
      ensures target == if item.Some? then Some((action, item.value.filePath)) else None
      ensures !visible
    {
      target := None;
      if item.Some? {
        target := Some((action, item.value.filePath));
      }
      visible := false;
    }
  }
}
