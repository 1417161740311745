/**
 The notifications page: notifications are grouped under their creation date, the groups appearing
 in the order their dates first appear and each group keeping the input order; and each card's badge
 and background colours.

 The locale date formatting that produces a group's heading is a parameter `dateKey`, applied to the
 `created_at` text.
 */
module Notifications {

  import opened Wrappers

  datatype Notification = Notification(id: int, message: string, kind: string, isRead: bool, createdAt: string)

  /** One entry of the grouped object: a date heading and the notifications filed under it. */
  datatype Group = Group(date: string, items: seq<Notification>)

  function DateOf(n: Notification, dateKey: string -> string): string {
    dateKey(n.createdAt)
  }

  function Dates(groups: seq<Group>): (ds: seq<string>)
    ensures |ds| == |groups| && forall j :: 0 <= j < |groups| ==> ds[j] == groups[j].date
  {
    seq(|groups|, j requires 0 <= j < |groups| => groups[j].date)
  }

  /** The keys of a JavaScript object are distinct. */
  predicate DistinctDates(groups: seq<Group>) {
    forall i, j :: 0 <= i < j < |groups| ==> groups[i].date != groups[j].date
  }

  predicate HasDate(groups: seq<Group>, date: string) {
    exists j :: 0 <= j < |groups| && groups[j].date == date
  }

  /** `grouped[date]`: the position of the group headed by `date`, if there is one. */
  function FindDate(groups: seq<Group>, date: string): (r: Option<nat>)
    ensures r.Some? ==> r.value < |groups| && groups[r.value].date == date
    ensures r.None? <==> !HasDate(groups, date)
  {
    if |groups| == 0 then None
    else if groups[0].date == date then Some(0)
    else
      var tail := groups[1..];
      match FindDate(tail, date)
      case Some(k) =>
        assert groups[k + 1] == tail[k];
        Some(k + 1)
      case None =>
        assert forall j :: 1 <= j < |groups| ==> groups[j] == tail[j - 1];
        None
  }

  /** One iteration of the `forEach`: file `n` under `date`, opening a new group at the end when the
      date has not been seen. Existing groups keep their place and date; only the one headed by
      `date` grows, by `n` at its end. */
  function FileUnder(groups: seq<Group>, date: string, n: Notification): (r: seq<Group>)
    requires DistinctDates(groups)
    ensures |r| == if HasDate(groups, date) then |groups| else |groups| + 1
    ensures forall j :: 0 <= j < |groups| ==> r[j].date == groups[j].date
    ensures forall j :: 0 <= j < |groups| ==>
      r[j].items == groups[j].items + (if groups[j].date == date then [n] else [])
    ensures !HasDate(groups, date) ==> r[|groups|] == Group(date, [n])
    ensures DistinctDates(r)
  {
    match FindDate(groups, date)
    case Some(i) =>
      assert forall j :: 0 <= j < |groups| && j != i ==> groups[j].date != groups[i].date;
      groups[i := groups[i].(items := groups[i].items + [n])]
    case None =>
      groups + [Group(date, [n])]
  }

  /** `groupByDate`: the `forEach` over the notifications, as a fold from the left. */
  function GroupByDate(nots: seq<Notification>, dateKey: string -> string): (r: seq<Group>)
    ensures DistinctDates(r)
  {
    if |nots| == 0 then []
    else
      var n := nots[|nots| - 1];
      FileUnder(GroupByDate(nots[..|nots| - 1], dateKey), DateOf(n, dateKey), n)
  }

  /** Reading the headings of the groups after one step. */
  lemma FileUnderDates(groups: seq<Group>, date: string, n: Notification)
    requires DistinctDates(groups)
    ensures HasDate(groups, date) <==> date in Dates(groups)
    ensures Dates(FileUnder(groups, date, n)) ==
      if date in Dates(groups) then Dates(groups) else Dates(groups) + [date]
  {
    if date in Dates(groups) {
      var j :| 0 <= j < |groups| && Dates(groups)[j] == date;
      assert groups[j].date == date;
    }
  }

  /** Reference definitions: each notification's date, the dates in order of first appearance, and
      the notifications carrying a given date in input order. */
  function DatesOf(nots: seq<Notification>, dateKey: string -> string): (ds: seq<string>)
    ensures |ds| == |nots| && forall i :: 0 <= i < |nots| ==> ds[i] == DateOf(nots[i], dateKey)
  {
    seq(|nots|, i requires 0 <= i < |nots| => DateOf(nots[i], dateKey))
  }

  function FirstAppearances(xs: seq<string>): seq<string> {
    if |xs| == 0 then []
    else
      var init := xs[..|xs| - 1];
      if xs[|xs| - 1] in init then FirstAppearances(init) else FirstAppearances(init) + [xs[|xs| - 1]]
  }

  function Matching(nots: seq<Notification>, dateKey: string -> string, date: string): seq<Notification> {
    if |nots| == 0 then []
    else
      var n := nots[|nots| - 1];
      Matching(nots[..|nots| - 1], dateKey, date) + (if DateOf(n, dateKey) == date then [n] else [])
  }

  lemma {:induction false} FirstAppearancesMembers(xs: seq<string>)
    ensures forall x :: x in FirstAppearances(xs) <==> x in xs
  {
    if |xs| > 0 {
      var init := xs[..|xs| - 1];
      FirstAppearancesMembers(init);
      assert xs == init + [xs[|xs| - 1]];
    }
  }

  lemma {:induction false} MatchingMembers(nots: seq<Notification>, dateKey: string -> string, date: string)
    ensures forall n :: n in Matching(nots, dateKey, date) <==> n in nots && DateOf(n, dateKey) == date
  {
    if |nots| > 0 {
      var init := nots[..|nots| - 1];
      MatchingMembers(init, dateKey, date);
      assert nots == init + [nots[|nots| - 1]];
    }
  }

  /** A date no notification carries has an empty reference group. */
  lemma {:induction false} MatchingOfUnseenDate(nots: seq<Notification>, dateKey: string -> string, d: string)
    requires d !in DatesOf(nots, dateKey)
    ensures Matching(nots, dateKey, d) == []
  {
    if |nots| > 0 {
      var init := nots[..|nots| - 1];
      assert DatesOf(nots, dateKey)[..|nots| - 1] == DatesOf(init, dateKey);
      assert DatesOf(nots, dateKey)[|nots| - 1] != d;
      MatchingOfUnseenDate(init, dateKey, d);
    }
  }

  /** The fold computes the reference headings: the dates in order of first appearance. */
  lemma {:induction false} GroupByDateHeadings(nots: seq<Notification>, dateKey: string -> string)
    ensures Dates(GroupByDate(nots, dateKey)) == FirstAppearances(DatesOf(nots, dateKey))
  {
    if |nots| > 0 {
      var init := nots[..|nots| - 1];
      var n := nots[|nots| - 1];
      var d := DateOf(n, dateKey);
      GroupByDateHeadings(init, dateKey);
      FileUnderDates(GroupByDate(init, dateKey), d, n);
      assert DatesOf(nots, dateKey)[..|nots| - 1] == DatesOf(init, dateKey);
      FirstAppearancesMembers(DatesOf(init, dateKey));
    }
  }

  /** The fold computes the reference groups: each holds exactly the notifications of its date, in
      input order. */
  lemma {:induction false} GroupByDateContents(nots: seq<Notification>, dateKey: string -> string)
    ensures forall j :: 0 <= j < |GroupByDate(nots, dateKey)| ==>
      GroupByDate(nots, dateKey)[j].items == Matching(nots, dateKey, GroupByDate(nots, dateKey)[j].date)
  {
    if |nots| > 0 {
      var init := nots[..|nots| - 1];
      var n := nots[|nots| - 1];
      var d := DateOf(n, dateKey);
      var g0 := GroupByDate(init, dateKey);
      var g := GroupByDate(nots, dateKey);
      GroupByDateContents(init, dateKey);
      forall j | 0 <= j < |g| ensures g[j].items == Matching(nots, dateKey, g[j].date) {
        var date := g[j].date;
        assert Matching(nots, dateKey, date) ==
          Matching(init, dateKey, date) + (if d == date then [n] else []);
        if j < |g0| {
          assert date == g0[j].date;
          assert g0[j].items == Matching(init, dateKey, date);
        } else {
          NewGroupIsReference(init, dateKey, n);
        }
      }
    }
  }

  /** The group a step opens for an unseen date holds the one notification of that date. */
  lemma NewGroupIsReference(init: seq<Notification>, dateKey: string -> string, n: Notification)
    requires !HasDate(GroupByDate(init, dateKey), DateOf(n, dateKey))
    ensures Matching(init, dateKey, DateOf(n, dateKey)) == []
    ensures
      var g0 := GroupByDate(init, dateKey);
      FileUnder(g0, DateOf(n, dateKey), n)[|g0|] == Group(DateOf(n, dateKey), [n])
  {
    var d := DateOf(n, dateKey);
    var g0 := GroupByDate(init, dateKey);
    GroupByDateHeadings(init, dateKey);
    FileUnderDates(g0, d, n);
    FirstAppearancesMembers(DatesOf(init, dateKey));
    MatchingOfUnseenDate(init, dateKey, d);
  }

  function Flatten(groups: seq<Group>): seq<Notification> {
    if |groups| == 0 then [] else groups[0].items + Flatten(groups[1..])
  }

  lemma {:induction false} FileUnderAddsOne(groups: seq<Group>, date: string, n: Notification)
    requires DistinctDates(groups)
    ensures multiset(Flatten(FileUnder(groups, date, n))) == multiset(Flatten(groups)) + multiset{n}
  {
    if |groups| > 0 {
      var tail := groups[1..];
      assert DistinctDates(tail) by {
        forall i, j | 0 <= i < j < |tail| ensures tail[i].date != tail[j].date {
          assert tail[i] == groups[i + 1] && tail[j] == groups[j + 1];
        }
      }
      var r := FileUnder(groups, date, n);
      if groups[0].date == date {
        assert r[1..] == tail;
      } else {
        FileUnderAddsOne(tail, date, n);
        assert r[1..] == FileUnder(tail, date, n);
      }
    }
  }

  /** One step of the fold adds exactly the filed notification to the groups' contents. */
  lemma GroupByDateStep(nots: seq<Notification>, dateKey: string -> string)
    requires |nots| > 0
    ensures multiset(Flatten(GroupByDate(nots, dateKey))) ==
      multiset(Flatten(GroupByDate(nots[..|nots| - 1], dateKey))) + multiset{nots[|nots| - 1]}
  {
    var n := nots[|nots| - 1];
    FileUnderAddsOne(GroupByDate(nots[..|nots| - 1], dateKey), DateOf(n, dateKey), n);
  }

  lemma MultisetOfLast(s: seq<Notification>)
    requires |s| > 0
    ensures multiset(s) == multiset(s[..|s| - 1]) + multiset{s[|s| - 1]}
  {
    assert s == s[..|s| - 1] + [s[|s| - 1]];
  }

  /** Grouping loses and duplicates nothing: the groups, read one after another, are a permutation
      of the input. */
  lemma {:induction false} GroupByDateIsPermutation(nots: seq<Notification>, dateKey: string -> string)
    ensures multiset(Flatten(GroupByDate(nots, dateKey))) == multiset(nots)
  {
    if |nots| > 0 {
      var init := nots[..|nots| - 1];
      GroupByDateIsPermutation(init, dateKey);
      GroupByDateStep(nots, dateKey);
      MultisetOfLast(nots);
    }
  }

  /** Every notification of the input sits in the one group headed by its own date and in no other. */
  lemma EachNotificationInItsOwnGroup(nots: seq<Notification>, dateKey: string -> string, n: Notification)
    requires n in nots
    ensures
      var g := GroupByDate(nots, dateKey);
      && (exists j :: 0 <= j < |g| && g[j].date == DateOf(n, dateKey))
      && forall j :: 0 <= j < |g| ==> (n in g[j].items <==> g[j].date == DateOf(n, dateKey))
  {
    var g := GroupByDate(nots, dateKey);
    GroupByDateHeadings(nots, dateKey);
    GroupByDateContents(nots, dateKey);
    FirstAppearancesMembers(DatesOf(nots, dateKey));
    var i :| 0 <= i < |nots| && nots[i] == n;
    assert DatesOf(nots, dateKey)[i] == DateOf(n, dateKey);
    assert DateOf(n, dateKey) in Dates(g);
    var k :| 0 <= k < |g| && Dates(g)[k] == DateOf(n, dateKey);
    assert g[k].date == DateOf(n, dateKey);
    forall j | 0 <= j < |g| ensures n in g[j].items <==> g[j].date == DateOf(n, dateKey) {
      MatchingMembers(nots, dateKey, g[j].date);
    }
  }

  /** No notifications, no groups. */
  lemma EmptyInputNoGroups(dateKey: string -> string)
    ensures GroupByDate([], dateKey) == []
  {
  }

  /** The badge colour scheme for a notification type. */
  function BadgeScheme(kind: string): (r: string)
    ensures r == "red" <==> kind == "budget"
    ensures r == "green" <==> kind == "savings"
    ensures r == "teal" <==> kind != "budget" && kind != "savings"
  {
    if kind == "budget" then "red" else if kind == "savings" then "green" else "teal"
  }

  /** The card background: white once read, tinted while unread. */
  function CardBackground(isRead: bool): (r: string)
    ensures r == "white" <==> isRead
    ensures r == "teal.50" <==> !isRead
  {
    if isRead then "white" else "teal.50"
  }
}
