/** The values the session browser shows: the listing with its query inputs, and the detail and
    lineage views. Views are numbered in the order they are created, so a late result can reach a
    view that has left the stack, as it can reach the object in the program. */
module BrowserViews {
  import opened Options
  import opened PyText

  // ----- The listing

  datatype Status = Active | Archived

  datatype Sort = Updated | Created

  datatype Control = StatusControl | SortControl

  datatype SearchMode = Off | Input | Running | Results

  /** The query inputs. */
  datatype Scope = Scope(status: Status, sort: Sort, query: string)

  /** `blocked` is why a fresh session cannot start from the chat, if it cannot. */
  datatype Row = Row(chatId: string, model: string, generation: string, blocked: Option<string>)

  /** A query result together with the scope of the query that gave it. */
  datatype Listing = Listing(answers: Scope, rows: seq<Row>)

  datatype ListState = ListState(
    listing: Listing, status: Status, sort: Sort, filterText: string, highlight: int, focus: Option<Control>,
    searchMode: SearchMode, searchQuery: string, scanned: nat, total: nat, unavailable: nat, matches: set<string>,
    message: Option<string>, pending: bool, loaded: Scope)
  {
    function CurrentScope(): Scope {
      Scope(status, sort, Strip(filterText))
    }

    function VisibleRows(): seq<Row> {
      if searchMode == Results then RowsIn(listing.rows, matches) else listing.rows
    }

    /** The body would show another scope's rows, or none yet, until the reload lands. */
    predicate Loading() {
      pending && (loaded != CurrentScope() || VisibleRows() == [])
    }

    function Highlighted(): Option<Row> {
      var rows := VisibleRows();
      if Loading() || rows == [] || highlight < 0 then None
      else Some(rows[if highlight < |rows| then highlight else |rows| - 1])
    }

    function Clamp(): ListState {
      var last := |VisibleRows()| - 1;
      var low := if highlight < last then highlight else last;
      this.(highlight := if low < 0 then 0 else low)
    }

    function LeaveSearch(): ListState {
      this.(searchMode := Off, searchQuery := [], scanned := 0, total := 0, unavailable := 0, matches := {}).Clamp()
    }

    function BeginReload(): ListState {
      this.(pending := true).LeaveSearch()
    }

    function ReplaceListing(rows: Listing): ListState {
      this.(listing := rows, loaded := CurrentScope(), pending := false, highlight := 0, message := None).LeaveSearch()
    }

    function EditFilter(text: string): ListState {
      this.(filterText := text, highlight := 0, message := None)
    }

    function Move(delta: int): ListState {
      this.(highlight := highlight + delta).Clamp().(message := None)
    }

    function CycleFocus(): ListState {
      this.(focus := match focus
                     case None => Some(StatusControl)
                     case Some(StatusControl) => Some(SortControl)
                     case Some(SortControl) => None)
    }

    /** Each control has two values, so an odd step takes the other one. */
    function StepFocused(delta: int): ListState {
      match focus
      case Some(StatusControl) =>
        this.(status := if delta % 2 == 0 then status else if status == Active then Archived else Active)
      case Some(SortControl) =>
        this.(sort := if delta % 2 == 0 then sort else if sort == Updated then Created else Updated)
      case None => this
    }

    function SetModel(chatId: string, model: string): ListState {
      this.(listing := Listing(listing.answers, WithModel(listing.rows, chatId, model)))
    }
  }

  function RowsIn(rows: seq<Row>, ids: set<string>): seq<Row> {
    if rows == [] then []
    else (if rows[0].chatId in ids then [rows[0]] else []) + RowsIn(rows[1..], ids)
  }

  function WithModel(rows: seq<Row>, chatId: string, model: string): seq<Row> {
    seq(|rows|, i requires 0 <= i < |rows| =>
      if rows[i].chatId == chatId then rows[i].(model := model) else rows[i])
  }

  function ChatIds(rows: seq<Row>): seq<string> {
    seq(|rows|, i requires 0 <= i < |rows| => rows[i].chatId)
  }

  // ----- The views

  /** One parsed transcript; `source` is the chat it was read from. */
  datatype Window = Window(source: string, load: nat)

  datatype Node = Node(chatId: string, row: Option<Row>)

  datatype View =
    | Detail(chatId: string, row: Option<Row>, model: string, window: Option<Window>, error: Option<string>,
             message: Option<string>)
    | Lineage(origin: string, nodes: Option<seq<Node>>, cursor: nat, failure: Option<string>)
  {
    /** `LineageState.move` */
    function MoveCursor(delta: int): View
      requires Lineage?
    {
      if nodes.Some? && nodes.value != [] then
        var low := if cursor + delta < |nodes.value| - 1 then cursor + delta else |nodes.value| - 1;
        this.(cursor := if low < 0 then 0 else low)
      else this
    }
  }

  /** The first node of a chat, or the first node. */
  function FirstOf(nodes: seq<Node>, chatId: string, from: nat): (cursor: nat)
    requires from <= |nodes|
    ensures cursor < |nodes| || cursor == 0
    decreases |nodes| - from
  {
    if from == |nodes| then 0
    else if nodes[from].chatId == chatId then from
    else FirstOf(nodes, chatId, from + 1)
  }

  /** One parsed transcript kept for the chat and the generation it was opened at. */
  datatype Snapshot = Snapshot(chatId: string, generation: string, window: Window)
}
