/**
 The financial-overview page: the pie-chart data built from the report's categories, the budget
 colour thresholds, and the advisor chat's send and reply transitions.
 */
module FinancialOverview {

  import opened Wrappers
  import opened Text

  datatype Category = Category(name: string, amount: real, kind: string)

  datatype Budget = Budget(category: string, spent: real, limit: real)

  /** The part of the fetched report the pie chart reads; `categories` may be missing. Each budget
      row is a `Budget` and the advisory text is the input of `Insights.InsightItems`. */
  datatype Report = Report(categories: Option<seq<Category>>)

  datatype Dataset = Dataset(data: seq<real>, backgroundColor: seq<string>, borderColor: seq<string>, borderWidth: int)

  datatype PieData = PieData(labels: seq<string>, datasets: seq<Dataset>)

  const IncomeFill := "rgba(75, 192, 192, 0.6)"
  const ExpenseFill := "rgba(255, 99, 132, 0.6)"
  const IncomeBorder := "rgba(75, 192, 192, 1)"
  const ExpenseBorder := "rgba(255, 99, 132, 1)"

  function Abs(x: real): real {
    if x < 0.0 then -x else x
  }

  function Fill(c: Category): string {
    if c.kind == "Income" then IncomeFill else ExpenseFill
  }

  /** `c.replace('0.6', '1')` turns the translucent income fill into the opaque border of the same hue. */
  lemma IncomeBorderIsOpaqueFill()
    ensures ReplaceFirst(IncomeFill, "0.6", "1") == IncomeBorder
  {
    assert IncomeFill[..19] == "rgba(75, 192, 192, ";
    assert IncomeFill[19..22] == "0.6";
    ReplaceFirstAfterClearPrefix(IncomeFill, "0.6", "1", 19);
    assert IncomeFill[22..] == ")";
  }

  /** Likewise for the expense fill. */
  lemma ExpenseBorderIsOpaqueFill()
    ensures ReplaceFirst(ExpenseFill, "0.6", "1") == ExpenseBorder
  {
    assert ExpenseFill[..19] == "rgba(255, 99, 132, ";
    assert ExpenseFill[19..22] == "0.6";
    ReplaceFirstAfterClearPrefix(ExpenseFill, "0.6", "1", 19);
    assert ExpenseFill[22..] == ")";
  }

  /** `getPieChartData`: nothing to draw without a report or without its categories; otherwise one
      dataset whose entries line up index for index with the categories. An empty category list is
      present, so it still yields one (empty) dataset. */
  function PieChartData(report: Option<Report>): (r: PieData)
    ensures report.None? || report.value.categories.None? ==> r.labels == [] && r.datasets == []
    ensures report.Some? && report.value.categories.Some? ==>
      var cats := report.value.categories.value;
      && |r.datasets| == 1
      && var ds := r.datasets[0];
      && |r.labels| == |ds.data| == |ds.backgroundColor| == |ds.borderColor| == |cats|
      && ds.borderWidth == 1
      && forall i :: 0 <= i < |cats| ==>
        && r.labels[i] == cats[i].name
        && ds.data[i] >= 0.0 && (ds.data[i] == cats[i].amount || ds.data[i] == -cats[i].amount)
        && (ds.backgroundColor[i] == IncomeFill <==> cats[i].kind == "Income")
        && (ds.backgroundColor[i] == ExpenseFill <==> cats[i].kind != "Income")
        && (ds.borderColor[i] == IncomeBorder <==> cats[i].kind == "Income")
        && (ds.borderColor[i] == ExpenseBorder <==> cats[i].kind != "Income")
  {
    if report.None? || report.value.categories.None? then
      PieData([], [])
    else
      var cats := report.value.categories.value;
      var labels := seq(|cats|, i requires 0 <= i < |cats| => cats[i].name);
      var data := seq(|cats|, i requires 0 <= i < |cats| => Abs(cats[i].amount));
      var colors := seq(|cats|, i requires 0 <= i < |cats| => Fill(cats[i]));
      var borders := seq(|cats|, i requires 0 <= i < |cats| => ReplaceFirst(colors[i], "0.6", "1"));
      IncomeBorderIsOpaqueFill();
      ExpenseBorderIsOpaqueFill();
      PieData(labels, [Dataset(data, colors, borders, 1)])
  }

  /** Colour of the "Spent / Limit" text of a budget. */
  function BudgetTextColour(b: Budget): (c: string)
    ensures c == "red.500" <==> b.spent > b.limit
    ensures c == "teal.600" <==> b.spent <= b.limit
  {
    if b.spent > b.limit then "red.500" else "teal.600"
  }

  /** Colour scheme of a budget's progress bar. */
  function BudgetBarScheme(b: Budget): (c: string)
    ensures c == "red" <==> b.spent >= b.limit
    ensures c == "teal" <==> b.spent < b.limit
  {
    if b.spent >= b.limit then "red" else "teal"
  }

  /** The text turns red only once the limit is exceeded, the bar already when it is reached, so the
      two disagree exactly at `spent == limit`, and never the other way round. */
  lemma BudgetColoursDisagreeOnlyAtLimit(b: Budget)
    ensures BudgetTextColour(b) == "red.500" <==> b.spent > b.limit
    ensures BudgetBarScheme(b) == "red" <==> b.spent >= b.limit
    ensures BudgetTextColour(b) == "red.500" ==> BudgetBarScheme(b) == "red"
    ensures (BudgetTextColour(b) == "teal.600" && BudgetBarScheme(b) == "red") <==> b.spent == b.limit
  {
  }

  datatype Sender = User | Bot

  datatype Message = Message(sender: Sender, text: string)

  /** The advisor chat: the transcript, the input box and whether a reply is awaited. */
  datatype Chat = Chat(messages: seq<Message>, input: string, loading: bool)

  datatype Sent = Sent(chat: Chat, query: Option<string>)

  const ChatFailure := "Sorry, something went wrong. Try again!"

  /** `handleSendMessage` up to the request: a blank input or a missing report sends nothing;
      otherwise the user's message is appended, the box is cleared and the raw input is posted. */
  function SendMessage(c: Chat, hasReport: bool): (r: Sent)
    ensures IsBlank(c.input) || !hasReport ==> r.chat == c && r.query.None?
    ensures !IsBlank(c.input) && hasReport ==>
      && r.chat.messages == c.messages + [Message(User, c.input)]
      && r.chat.input == ""
      && r.chat.loading
      && r.query == Some(c.input)
  {
    TrimEmptyIffBlank(c.input);
    if Trim(c.input) == "" || !hasReport then Sent(c, None)
    else Sent(Chat(c.messages + [Message(User, c.input)], "", true), Some(c.input))
  }

  /** The end of `handleSendMessage`: the server's reply, or the apology when the request failed, is
      appended and the wait ends. */
  function ReceiveReply(c: Chat, reply: Option<string>): (r: Chat)
    ensures |r.messages| == |c.messages| + 1 && r.messages[..|c.messages|] == c.messages
    ensures r.messages[|c.messages|] == Message(Bot, if reply.Some? then reply.value else ChatFailure)
    ensures r.input == c.input && !r.loading
  {
    var text := reply.GetOr(ChatFailure);
    Chat(c.messages + [Message(Bot, text)], c.input, false)
  }

  /** A completed exchange adds exactly the user's question and then one bot message, keeps the
      earlier transcript and leaves the box empty. */
  lemma ExchangeAppendsQuestionThenAnswer(c: Chat, reply: Option<string>)
    requires !IsBlank(c.input)
    ensures
      var s := SendMessage(c, true);
      var d := ReceiveReply(s.chat, reply);
      && d.messages[..|c.messages|] == c.messages
      && |d.messages| == |c.messages| + 2
      && d.messages[|c.messages|] == Message(User, c.input)
      && d.messages[|c.messages| + 1].sender == Bot
      && d.input == "" && !d.loading
  {
    var s := SendMessage(c, true);
    var d := ReceiveReply(s.chat, reply);
    assert d.messages[..|s.chat.messages|] == s.chat.messages;
    assert s.chat.messages[..|c.messages|] == c.messages;
  }
}
