/**
 * The decision logic of the emergency tab: the emergency-contact list, the
 * order in which contacts are notified, the "Name (ID)" labels of the node
 * picker and their parsing, the beacon flag, and the medical-information
 * text appended to the emergency message.
 */
module Emergency {
  import opened Wrappers
  import opened Text
  import opened Values
  import Database
  import StringOrder
  import Seqs

  datatype Contact = Contact(name: string, nodeId: string, priority: string)

  /** No two contacts share a node id. */
  predicate UniqueIds(cs: seq<Contact>) {
    forall i, j :: 0 <= i < j < |cs| ==> cs[i].nodeId != cs[j].nodeId
  }

  predicate HasId(cs: seq<Contact>, id: string) {
    exists i :: 0 <= i < |cs| && cs[i].nodeId == id
  }

  datatype AddError = MissingField | DuplicateId

  /**
   * `add_emergency_contact`: both fields are stripped and must be non-empty,
   * and the node id must be new; then the contact is appended.
   */
  function AddContact(cs: seq<Contact>, name: string, nodeId: string, priority: string): (r: Result<seq<Contact>, AddError>)
    ensures r == Err(MissingField) <==> Strip(name) == "" || Strip(nodeId) == ""
    ensures r == Err(DuplicateId) <==> Strip(name) != "" && Strip(nodeId) != "" && HasId(cs, Strip(nodeId))
    ensures r.Ok? ==> r.value == cs + [Contact(Strip(name), Strip(nodeId), priority)]
  {
    var n := Strip(name);
    var id := Strip(nodeId);
    if n == "" || id == "" then Err(MissingField)
    else if HasId(cs, id) then Err(DuplicateId)
    else Ok(cs + [Contact(n, id, priority)])
  }

  /** Adding never lets two contacts share a node id. */
  lemma AddKeepsUnique(cs: seq<Contact>, name: string, nodeId: string, priority: string)
    requires UniqueIds(cs)
    ensures AddContact(cs, name, nodeId, priority).Ok? ==> UniqueIds(AddContact(cs, name, nodeId, priority).value)
  {
  }

  /**
   * `remove_emergency_contact` with the selected id compared as the text the
   * tree shows: every contact with that node id goes, the rest stay in order.
   */
  function RemoveContact(cs: seq<Contact>, id: string): (r: seq<Contact>)
    ensures forall c :: c in r <==> c in cs && c.nodeId != id
    ensures !HasId(r, id)
    ensures |r| <= |cs|
  {
    if |cs| == 0 then []
    else
      var rest := RemoveContact(cs[..|cs| - 1], id);
      var last := cs[|cs| - 1];
      assert cs == cs[..|cs| - 1] + [last];
      if last.nodeId == id then rest else rest + [last]
  }

  lemma {:induction false} RemoveAppend(cs: seq<Contact>, c: Contact, id: string)
    ensures RemoveContact(cs + [c], id) == RemoveContact(cs, id) + (if c.nodeId == id then [] else [c])
  {
    assert (cs + [c])[..|cs|] == cs;
  }

  /** A contact that does not carry the id is untouched by removal. */
  lemma {:induction false} RemoveAbsent(cs: seq<Contact>, id: string)
    requires !HasId(cs, id)
    ensures RemoveContact(cs, id) == cs
  {
    if |cs| > 0 {
      var p := cs[..|cs| - 1];
      assert forall i :: 0 <= i < |p| ==> p[i] == cs[i];
      RemoveAbsent(p, id);
      assert cs == p + [cs[|cs| - 1]];
      RemoveAppend(p, cs[|cs| - 1], id);
    }
  }

  /** Removal undoes a successful add. */
  lemma AddThenRemove(cs: seq<Contact>, name: string, nodeId: string, priority: string)
    requires AddContact(cs, name, nodeId, priority).Ok?
    ensures RemoveContact(AddContact(cs, name, nodeId, priority).value, Strip(nodeId)) == cs
  {
    var c := Contact(Strip(name), Strip(nodeId), priority);
    RemoveAppend(cs, c, Strip(nodeId));
    RemoveAbsent(cs, Strip(nodeId));
  }

  /**
   * `remove_emergency_contact` as written: the tree hands the selected id
   * back through `int()` where that succeeds, and each stored text id is
   * compared with it by Python's `!=`, so a number matches no contact.
   */
  function RemoveContactAsWritten(cs: seq<Contact>, cell: string): (r: seq<Contact>)
    ensures forall c :: c in r <==> c in cs && Str(c.nodeId) != TreeCell(cell)
    ensures ParseInt(cell).Some? ==> r == cs
    ensures ParseInt(cell).None? ==> r == RemoveContact(cs, cell)
  {
    match TreeCell(cell)
    case Str(id) => RemoveContact(cs, id)
    case _ => cs
  }

  /**
   * A contact whose id is a node number, as the node picker fills it in,
   * survives its own removal as written, and goes when compared as text.
   */
  lemma PickerContactSurvivesRemoval(name: string, num: int, priority: string)
    ensures var cs := [Contact(name, IntToString(num), priority)];
      RemoveContactAsWritten(cs, IntToString(num)) == cs && RemoveContact(cs, IntToString(num)) == []
  {
    TreeCellOfInt(num);
    RemoveAppend([], Contact(name, IntToString(num), priority), IntToString(num));
    assert [] + [Contact(name, IntToString(num), priority)] == [Contact(name, IntToString(num), priority)];
  }

  /**
   * As written, removing a contact just added undoes the add exactly when
   * its id is not a number; a numeric id leaves the contact in the list.
   */
  lemma AddThenRemoveAsWritten(cs: seq<Contact>, name: string, nodeId: string, priority: string)
    requires AddContact(cs, name, nodeId, priority).Ok?
    ensures ParseInt(Strip(nodeId)).None? ==>
      RemoveContactAsWritten(AddContact(cs, name, nodeId, priority).value, Strip(nodeId)) == cs
    ensures ParseInt(Strip(nodeId)).Some? ==>
      RemoveContactAsWritten(AddContact(cs, name, nodeId, priority).value, Strip(nodeId)) ==
        AddContact(cs, name, nodeId, priority).value
  {
    AddThenRemove(cs, name, nodeId, priority);
  }

  /** The sort key of `notify_emergency_contacts`: High 0, Low 2, anything else 1. */
  function Rank(priority: string): (r: nat)
    ensures r <= 2
    ensures r == 0 <==> priority == "High"
    ensures r == 2 <==> priority == "Low"
  {
    if priority == "High" then 0 else if priority == "Low" then 2 else 1
  }

  /** Place `c` in front of the first contact whose rank is not lower. */
  function InsertByRank(c: Contact, cs: seq<Contact>): (r: seq<Contact>)
    ensures |r| == |cs| + 1 && (r[0] == c || (|cs| > 0 && r[0] == cs[0]))
  {
    if |cs| == 0 || Rank(c.priority) <= Rank(cs[0].priority) then [c] + cs
    else [cs[0]] + InsertByRank(c, cs[1..])
  }

  /** Insertion adds `c` and loses nothing. */
  lemma {:induction false} InsertByRankPermutes(c: Contact, cs: seq<Contact>)
    ensures multiset(InsertByRank(c, cs)) == multiset(cs) + multiset{c}
  {
    if |cs| > 0 && Rank(c.priority) > Rank(cs[0].priority) {
      InsertByRankPermutes(c, cs[1..]);
      assert cs == [cs[0]] + cs[1..];
    }
  }

  /** Insertion into a rank-sorted list keeps it sorted. */
  lemma {:induction false} InsertByRankSorted(c: Contact, cs: seq<Contact>)
    requires RankSorted(cs)
    ensures RankSorted(InsertByRank(c, cs))
  {
    if |cs| > 0 && Rank(c.priority) > Rank(cs[0].priority) {
      var t := cs[1..];
      assert RankSorted(t) by {
        forall i | 0 < i < |t| ensures Rank(t[i - 1].priority) <= Rank(t[i].priority) {
          assert t[i - 1] == cs[i] && t[i] == cs[i + 1];
        }
      }
      InsertByRankSorted(c, t);
      var rt := InsertByRank(c, t);
      var r := [cs[0]] + rt;
      assert r == InsertByRank(c, cs);
      assert |t| > 0 ==> Rank(cs[0].priority) <= Rank(t[0].priority) by {
        if |t| > 0 {
          assert t[0] == cs[1];
        }
      }
      forall i | 0 < i < |r| ensures Rank(r[i - 1].priority) <= Rank(r[i].priority) {
        if i > 1 {
          assert r[i - 1] == rt[i - 2] && r[i] == rt[i - 1];
        }
      }
    }
  }

  /** Each contact's rank is at most its successor's. */
  predicate RankSorted(cs: seq<Contact>) {
    forall i :: 0 < i < |cs| ==> Rank(cs[i - 1].priority) <= Rank(cs[i].priority)
  }

  /** `sorted(contacts, key=rank)`: a stable insertion sort. */
  function NotifyOrder(cs: seq<Contact>): (r: seq<Contact>)
    ensures multiset(r) == multiset(cs)
    ensures RankSorted(r)
  {
    if |cs| == 0 then []
    else
      var rest := NotifyOrder(cs[1..]);
      InsertByRankPermutes(cs[0], rest);
      InsertByRankSorted(cs[0], rest);
      assert cs == [cs[0]] + cs[1..];
      InsertByRank(cs[0], rest)
  }

  /** The contacts of one rank, in list order. */
  function OfRank(cs: seq<Contact>, k: nat): (r: seq<Contact>)
    ensures forall c :: c in r <==> c in cs && Rank(c.priority) == k
  {
    if |cs| == 0 then []
    else
      assert cs == [cs[0]] + cs[1..];
      (if Rank(cs[0].priority) == k then [cs[0]] else []) + OfRank(cs[1..], k)
  }

  /** The reference order: High contacts, then Normal (and unknown) ones, then Low ones, each in list order. */
  function Grouped(cs: seq<Contact>): seq<Contact> {
    OfRank(cs, 0) + OfRank(cs, 1) + OfRank(cs, 2)
  }

  lemma GroupedSorted(cs: seq<Contact>)
    ensures RankSorted(Grouped(cs))
  {
    var g := Grouped(cs);
    var a, b, c := OfRank(cs, 0), OfRank(cs, 1), OfRank(cs, 2);
    assert forall i :: 0 <= i < |g| ==> Rank(g[i].priority) == (if i < |a| then 0 else if i < |a| + |b| then 1 else 2) by {
      forall i | 0 <= i < |g|
        ensures Rank(g[i].priority) == (if i < |a| then 0 else if i < |a| + |b| then 1 else 2)
      {
        if i < |a| {
          assert g[i] == a[i] && a[i] in a;
        } else if i < |a| + |b| {
          assert g[i] == b[i - |a|] && b[i - |a|] in b;
        } else {
          assert g[i] == c[i - |a| - |b|] && c[i - |a| - |b|] in c;
        }
      }
    }
  }

  /** Insertion passes over a first contact of lower rank. */
  lemma InsertStep(c: Contact, xs: seq<Contact>)
    requires |xs| > 0 && Rank(xs[0].priority) < Rank(c.priority)
    ensures InsertByRank(c, xs) == [xs[0]] + InsertByRank(c, xs[1..])
  {
  }

  /** Inserting a contact passes over every contact of lower rank and stops at the first of its own rank or above. */
  lemma {:induction false} InsertPast(c: Contact, low: seq<Contact>, rest: seq<Contact>)
    requires forall i :: 0 <= i < |low| ==> Rank(low[i].priority) < Rank(c.priority)
    requires |rest| == 0 || Rank(c.priority) <= Rank(rest[0].priority)
    ensures InsertByRank(c, low + rest) == low + [c] + rest
  {
    if |low| > 0 {
      var xs, tail := low + rest, low[1..];
      assert xs[0] == low[0];
      assert xs[1..] == tail + rest;
      InsertPast(c, tail, rest);
      InsertStep(c, xs);
      assert low == [low[0]] + tail;
    } else {
      assert low + rest == rest;
    }
  }

  lemma OfRankRanks(cs: seq<Contact>, k: nat)
    ensures forall i :: 0 <= i < |OfRank(cs, k)| ==> Rank(OfRank(cs, k)[i].priority) == k
  {
    var r := OfRank(cs, k);
    forall i | 0 <= i < |r|
      ensures Rank(r[i].priority) == k
    {
      assert r[i] in r;
    }
  }

  lemma OfRankCons(c: Contact, cs: seq<Contact>, k: nat)
    ensures Rank(c.priority) == k ==> OfRank([c] + cs, k) == [c] + OfRank(cs, k)
    ensures Rank(c.priority) != k ==> OfRank([c] + cs, k) == OfRank(cs, k)
  {
    var all := [c] + cs;
    assert all[0] == c && all[1..] == cs;
    assert [] + OfRank(cs, k) == OfRank(cs, k);
  }

  /** Inserting the first contact into the grouped order of the others gives the grouped order of all. */
  lemma InsertIntoGroups(c: Contact, cs: seq<Contact>)
    ensures InsertByRank(c, Grouped(cs)) == Grouped([c] + cs)
  {
    var a, b, d := OfRank(cs, 0), OfRank(cs, 1), OfRank(cs, 2);
    OfRankCons(c, cs, 0);
    OfRankCons(c, cs, 1);
    OfRankCons(c, cs, 2);
    OfRankRanks(cs, 0);
    OfRankRanks(cs, 1);
    OfRankRanks(cs, 2);
    var k := Rank(c.priority);
    if k == 0 {
      InsertHigh(c, a, b, d);
    } else if k == 1 {
      InsertNormal(c, a, b, d);
    } else {
      InsertLow(c, a, b, d);
    }
  }

  lemma Regroup<T>(a: seq<T>, b: seq<T>, c: seq<T>, d: seq<T>)
    ensures a + b + (c + d) == a + (b + c) + d == a + b + c + d
    ensures a + (b + c + d) == a + b + c + d
  {
  }

  lemma Assoc<T>(a: seq<T>, b: seq<T>, c: seq<T>)
    ensures a + b + c == a + (b + c)
  {
  }

  lemma InsertHigh(c: Contact, a: seq<Contact>, b: seq<Contact>, d: seq<Contact>)
    requires Rank(c.priority) == 0
    ensures InsertByRank(c, a + b + d) == [c] + a + b + d
  {
    InsertPast(c, [], a + b + d);
    assert [] + (a + b + d) == a + b + d;
    Regroup([c], a, b, d);
  }

  lemma InsertNormal(c: Contact, a: seq<Contact>, b: seq<Contact>, d: seq<Contact>)
    requires Rank(c.priority) == 1
    requires forall i :: 0 <= i < |a| ==> Rank(a[i].priority) == 0
    requires forall i :: 0 <= i < |b| ==> Rank(b[i].priority) == 1
    requires forall i :: 0 <= i < |d| ==> Rank(d[i].priority) == 2
    ensures InsertByRank(c, a + b + d) == a + ([c] + b) + d
  {
    assert |b + d| > 0 ==> (b + d)[0] == (if |b| > 0 then b[0] else d[0]);
    InsertPast(c, a, b + d);
    Regroup(a, [c], b, d);
    Assoc(a, b, d);
  }

  lemma InsertLow(c: Contact, a: seq<Contact>, b: seq<Contact>, d: seq<Contact>)
    requires Rank(c.priority) == 2
    requires forall i :: 0 <= i < |a| ==> Rank(a[i].priority) == 0
    requires forall i :: 0 <= i < |b| ==> Rank(b[i].priority) == 1
    requires forall i :: 0 <= i < |d| ==> Rank(d[i].priority) == 2
    ensures InsertByRank(c, a + b + d) == a + b + ([c] + d)
  {
    LowerRanks(a, b, 2);
    InsertPast(c, a + b, d);
    Regroup(a, b, [c], d);
  }

  lemma LowerRanks(a: seq<Contact>, b: seq<Contact>, k: nat)
    requires k == 2
    requires forall i :: 0 <= i < |a| ==> Rank(a[i].priority) == 0
    requires forall i :: 0 <= i < |b| ==> Rank(b[i].priority) == 1
    ensures forall i :: 0 <= i < |a + b| ==> Rank((a + b)[i].priority) < k
  {
    forall i | 0 <= i < |a + b|
      ensures Rank((a + b)[i].priority) < k
    {
      if i < |a| { assert (a + b)[i] == a[i]; } else { assert (a + b)[i] == b[i - |a|]; }
    }
  }

  /** The stable sort equals the reference order: High, then Normal, then Low, ties in list order. */
  lemma {:induction false} NotifyOrderGrouped(cs: seq<Contact>)
    ensures NotifyOrder(cs) == Grouped(cs)
  {
    if |cs| > 0 {
      assert cs == [cs[0]] + cs[1..];
      NotifyOrderGrouped(cs[1..]);
      InsertIntoGroups(cs[0], cs[1..]);
    }
  }

  function Ids(cs: seq<Contact>): (r: seq<string>)
    ensures |r| == |cs| && forall i :: 0 <= i < |cs| ==> r[i] == cs[i].nodeId
  {
    if |cs| == 0 then [] else Ids(cs[..|cs| - 1]) + [cs[|cs| - 1].nodeId]
  }

  lemma IdsHasId(cs: seq<Contact>)
    ensures forall id :: id in Ids(cs) <==> HasId(cs, id)
  {
    var r := Ids(cs);
    forall id | HasId(cs, id)
      ensures id in r
    {
      var i :| 0 <= i < |cs| && cs[i].nodeId == id;
      assert r[i] == id;
    }
  }

  lemma SameContactsSameIds(a: seq<Contact>, b: seq<Contact>)
    requires multiset(a) == multiset(b)
    ensures forall id :: HasId(a, id) <==> HasId(b, id)
  {
    forall id | HasId(a, id)
      ensures HasId(b, id)
    {
      var i :| 0 <= i < |a| && a[i].nodeId == id;
      assert a[i] in multiset(b);
      var j :| 0 <= j < |b| && b[j] == a[i];
    }
    forall id | HasId(b, id)
      ensures HasId(a, id)
    {
      var i :| 0 <= i < |b| && b[i].nodeId == id;
      assert b[i] in multiset(a);
      var j :| 0 <= j < |a| && a[j] == b[i];
    }
  }

  /** `notify_emergency_contacts`: the node ids messaged, in order; nobody while disconnected. */
  function Notify(connected: bool, cs: seq<Contact>): (r: seq<string>)
    ensures !connected ==> r == []
    ensures connected ==> |r| == |cs| && forall id :: id in r <==> HasId(cs, id)
  {
    if connected then
      var sorted := NotifyOrder(cs);
      IdsHasId(sorted);
      SameContactsSameIds(sorted, cs);
      assert |sorted| == |multiset(sorted)| == |multiset(cs)| == |cs|;
      Ids(sorted)
    else []
  }

  // ---------------------------------------------------------------- node picker

  /** The name shown for a node: its non-empty long name, else its non-empty short name, else "Node <id>". */
  function NodeName(id: string, node: Value): (r: string)
    ensures var user := if node.Dict? then Get(node.entries, "user", Null) else Null;
      var long := if user.Dict? then Get(user.entries, "longName", Null) else Null;
      var short := if user.Dict? then Get(user.entries, "shortName", Null) else Null;
      if Truthy(long) && SimpleStr(long) then r == PyStr(long)
      else if !Truthy(long) && Truthy(short) && SimpleStr(short) then r == PyStr(short)
      else r == "Node " + id
  {
    var user := if node.Dict? then Get(node.entries, "user", Null) else Null;
    if !user.Dict? then "Node " + id
    else
      var long := Get(user.entries, "longName", Null);
      var short := Get(user.entries, "shortName", Null);
      if Truthy(long) then (if SimpleStr(long) then PyStr(long) else "Node " + id)
      else if Truthy(short) then (if SimpleStr(short) then PyStr(short) else "Node " + id)
      else "Node " + id
  }

  /** `f"{name} ({id})"`. */
  function Label(name: string, id: string): string {
    name + " (" + id + ")"
  }

  function NodeLabels(nodes: seq<(string, Value)>): (r: seq<string>)
    ensures |r| == |nodes|
    ensures forall i :: 0 <= i < |nodes| ==> r[i] == Label(NodeName(nodes[i].0, nodes[i].1), nodes[i].0)
  {
    seq(|nodes|, i requires 0 <= i < |nodes| => Label(NodeName(nodes[i].0, nodes[i].1), nodes[i].0))
  }

  datatype Picker = NotConnected | NoNodes | Options(labels: seq<string>)

  /** `refresh_available_nodes`: a placeholder while disconnected or without nodes, else the sorted labels. */
  function RefreshAvailableNodes(connected: bool, nodes: seq<(string, Value)>): (r: Picker)
    ensures r == NotConnected <==> !connected
    ensures r == NoNodes <==> connected && |nodes| == 0
    ensures r.Options? ==> StringOrder.Sorted(r.labels) && multiset(r.labels) == multiset(NodeLabels(nodes))
  {
    if !connected then NotConnected
    else if |nodes| == 0 then NoNodes
    else Options(StringOrder.Sort(NodeLabels(nodes)))
  }

  /** `s` contains no " (" */
  predicate NoSpaceParen(s: string) {
    forall i :: 0 <= i < |s| - 1 ==> !(s[i] == ' ' && s[i + 1] == '(')
  }

  /**
   * `on_node_selected`: nothing for a selection without "("; otherwise the
   * name is the text before the first " (" and the id the text after the
   * last "(" without its trailing ")" characters.
   */
  function ParseSelection(selected: string): (r: Option<(string, string)>)
    ensures r.None? <==> '(' !in selected
    ensures r.Some? ==> |r.value.0| <= |selected| && r.value.0 == selected[..|r.value.0|] && NoSpaceParen(r.value.0)
    ensures r.Some? ==> '(' !in r.value.1 && (r.value.1 == [] || r.value.1[|r.value.1| - 1] != ')')
  {
    if '(' !in selected then None
    else
      var name := BeforeFirst(selected, " (");
      var id := RStripChar(AfterLast(selected, '('), ')');
      NameBeforeParen(selected);
      IdWithoutParen(selected);
      Some((name, id))
  }

  lemma NameBeforeParen(selected: string)
    ensures NoSpaceParen(BeforeFirst(selected, " ("))
  {
    var name := BeforeFirst(selected, " (");
    forall i | 0 <= i < |name| - 1
      ensures !(name[i] == ' ' && name[i + 1] == '(')
    {
      assert !StartsWith(selected[i..], " (");
      assert selected[i..][..2] == [name[i], name[i + 1]];
    }
  }

  lemma IdWithoutParen(selected: string)
    ensures var id := RStripChar(AfterLast(selected, '('), ')');
      '(' !in id && (id == [] || id[|id| - 1] != ')')
  {
    var after := AfterLast(selected, '(');
    var id := RStripChar(after, ')');
    assert forall k :: 0 <= k < |id| ==> id[k] == after[k];
  }

  /** Parsing a label gives back the name and id it was built from. */
  lemma LabelRoundTrip(name: string, id: string)
    requires NoSpaceParen(name)
    requires '(' !in id && (id == [] || id[|id| - 1] != ')')
    ensures ParseSelection(Label(name, id)) == Some((name, id))
  {
    var s := Label(name, id);
    assert s[|name| + 1] == '(';
    AfterLastLabel(name, id);
    RStripLabel(id);
    BeforeFirstLabel(name, id);
  }

  lemma AfterLastLabel(name: string, id: string)
    requires '(' !in id
    ensures AfterLast(Label(name, id), '(') == id + ")"
  {
    var s := Label(name, id);
    var t := id + ")";
    var r := AfterLast(s, '(');
    assert s == name + " (" + t;
    assert s[|name| + 1] == '(';
    assert forall k :: 0 <= k < |t| ==> s[|name| + 2 + k] == t[k];
    assert |r| == |t|;
    assert r == s[|s| - |t|..];
  }

  lemma RStripLabel(id: string)
    requires id == [] || id[|id| - 1] != ')'
    ensures RStripChar(id + ")", ')') == id
  {
    var t := id + ")";
    var r := RStripChar(t, ')');
    assert |r| == |id|;
    assert r == t[..|id|];
  }

  lemma BeforeFirstLabel(name: string, id: string)
    requires NoSpaceParen(name)
    ensures BeforeFirst(Label(name, id), " (") == name
  {
    var s := Label(name, id);
    var r := BeforeFirst(s, " (");
    assert s[|name|] == ' ' && s[|name| + 1] == '(';
    assert s[|name|..][..2] == " (";
    forall i | 0 <= i < |name|
      ensures !StartsWith(s[i..], " (")
    {
      assert s[i..][..2] == [s[i], s[i + 1]];
      assert name[i] == s[i];
      if i + 1 < |name| {
        assert name[i + 1] == s[i + 1];
      }
    }
    assert |r| == |name|;
    assert r == s[..|name|];
  }

  // ---------------------------------------------------------------- beacon

  /** What one action of the emergency tab does: the new flag, the destinations messaged, the events logged. */
  datatype Outcome = Outcome(active: bool, sends: seq<string>, logged: seq<Database.Op>)

  const Broadcast := "^all"

  /**
   * `activate_emergency_beacon`: needs a connection and a confirmation. With a
   * position the beacon is broadcast, logged with the position and sent to the
   * contacts; without one it is broadcast and logged without a position. When
   * the broadcast raises, the handler's `except` ends the action before the
   * event is logged or the flag is set: nothing changes.
   */
  function ActivateBeacon(active: bool, connected: bool, confirmed: bool, broadcastRaises: bool,
                          position: Option<(real, real)>, cs: seq<Contact>, message: string, now: int): (r: Outcome)
    ensures !(connected && confirmed) || broadcastRaises ==> r == Outcome(active, [], [])
    ensures connected && confirmed && !broadcastRaises ==>
      r.active && |r.logged| == 1 && |r.sends| >= 1 && r.sends[0] == Broadcast
    ensures connected && confirmed && !broadcastRaises ==>
      r.logged[0] == Database.EmergencyOp(Str("LOCAL"), Str("beacon"),
        if position.Some? then Real(position.value.0) else Null,
        if position.Some? then Real(position.value.1) else Null, Str(message), now)
    ensures connected && confirmed && !broadcastRaises ==> r.sends[1..] == (if position.Some? then Notify(true, cs) else [])
  {
    if !(connected && confirmed) || broadcastRaises then Outcome(active, [], [])
    else match position
      case Some((lat, lon)) =>
        Outcome(true, [Broadcast] + Notify(true, cs),
                [Database.EmergencyOp(Str("LOCAL"), Str("beacon"), Real(lat), Real(lon), Str(message), now)])
      case None =>
        Outcome(true, [Broadcast], [Database.EmergencyOp(Str("LOCAL"), Str("beacon"), Null, Null, Str(message), now)])
  }

  /**
   * `cancel_emergency`: only an active, confirmed cancel does anything; it
   * clears the flag, logs the cancellation and, when connected, broadcasts it
   * and tells the contacts. A broadcast that raises ends the action before
   * the flag is cleared or the cancellation logged.
   */
  function CancelEmergency(active: bool, confirmed: bool, connected: bool, broadcastRaises: bool,
                           cs: seq<Contact>, now: int): (r: Outcome)
    ensures !(active && confirmed) ==> r == Outcome(active, [], [])
    ensures active && confirmed && connected && broadcastRaises ==> r == Outcome(true, [], [])
    ensures active && confirmed && !(connected && broadcastRaises) ==> !r.active
    ensures active && confirmed && !(connected && broadcastRaises) ==>
      r.logged == [Database.EmergencyOp(Str("LOCAL"), Str("cancelled"), Null, Null, Str("Emergency cancelled"), now)]
    ensures active && confirmed && !(connected && broadcastRaises) ==>
      r.sends == (if connected then [Broadcast] + Notify(true, cs) else [])
  {
    if !(active && confirmed) || (connected && broadcastRaises) then Outcome(active, [], [])
    else
      Outcome(false, if connected then [Broadcast] + Notify(connected, cs) else [],
              [Database.EmergencyOp(Str("LOCAL"), Str("cancelled"), Null, Null, Str("Emergency cancelled"), now)])
  }

  /**
   * A confirmed beacon followed by a confirmed cancel, both broadcast
   * without a raise, leaves the beacon inactive and logs a beacon event
   * then a cancellation; neither reaches the emergency table through the
   * batch writer as written.
   */
  lemma BeaconThenCancel(connected: bool, position: Option<(real, real)>, cs: seq<Contact>, message: string,
                         t0: int, t1: int, tables: Database.Tables)
    requires connected
    ensures var a := ActivateBeacon(false, connected, true, false, position, cs, message, t0);
      var c := CancelEmergency(a.active, true, connected, false, cs, t1);
      a.active && !c.active &&
      Database.ProcessBatchAsWritten(tables, a.logged + c.logged).emergencies == tables.emergencies &&
      Database.ProcessBatch(tables, a.logged + c.logged).emergencies == tables.emergencies + [a.logged[0].emergency, c.logged[0].emergency]
  {
    var a := ActivateBeacon(false, connected, true, false, position, cs, message, t0);
    var c := CancelEmergency(a.active, true, connected, false, cs, t1);
    assert a.logged == [a.logged[0]] && c.logged == [c.logged[0]];
    EmergencyPair(tables, a.logged[0], c.logged[0]);
  }

  /**
   * A beacon whose broadcast raises leaves nothing to cancel, and a cancel
   * whose broadcast raises leaves the beacon active: in both cases nothing
   * is logged.
   */
  lemma FailedBroadcasts(position: Option<(real, real)>, cs: seq<Contact>, message: string, t0: int, t1: int)
    ensures var a := ActivateBeacon(false, true, true, true, position, cs, message, t0);
      !a.active && a.logged == [] && CancelEmergency(a.active, true, true, false, cs, t1) == Outcome(false, [], [])
    ensures var a := ActivateBeacon(false, true, true, false, position, cs, message, t0);
      var c := CancelEmergency(a.active, true, true, true, cs, t1);
      c.active && c.logged == [] && c.sends == []
  {
  }

  lemma EmergencyPair(t: Database.Tables, x: Database.Op, y: Database.Op)
    requires x.LogEmergencyEvent? && y.LogEmergencyEvent?
    ensures Database.ProcessBatchAsWritten(t, [x] + [y]).emergencies == t.emergencies
    ensures Database.ProcessBatch(t, [x] + [y]).emergencies == t.emergencies + [x.emergency, y.emergency]
  {
    var b := [x] + [y];
    assert b[..1] == [x] && [x][..0] == [];
    assert Database.EmergenciesOf([x]) == [x.emergency];
    assert Database.EmergenciesOf(b) == [x.emergency] + [y.emergency];
  }

  // ---------------------------------------------------------------- medical information

  /** The medical fields of the form, in form order. */
  const MedicalFields := ["blood_type", "allergies", "medications", "medical_conditions", "emergency_contact", "insurance"]

  /** `field.replace('_', ' ').title()`. */
  function FieldLabel(key: string): string {
    Title(ReplaceChar(key, '_', ' '))
  }

  /** "<Field Label>: <value>" for a field whose stripped value is non-empty. */
  function MedicalLine(f: (string, string)): Option<string> {
    if Strip(f.1) == "" then None else Some(FieldLabel(f.0) + ": " + Strip(f.1))
  }

  /** The lines of the filled-in fields, in field order. */
  function MedicalLines(fields: seq<(string, string)>): (r: seq<string>)
    ensures |r| <= |fields|
  {
    Seqs.FilterMap(fields, MedicalLine)
  }

  /** There are no lines exactly when no field is filled in. */
  lemma MedicalLinesEmpty(fields: seq<(string, string)>)
    ensures MedicalLines(fields) == [] <==> forall i :: 0 <= i < |fields| ==> MedicalLine(fields[i]).None?
  {
    Seqs.FilterMapEmpty(fields, MedicalLine);
  }

  /** Every line comes from a filled-in field, and every filled-in field gives a line. */
  lemma MedicalLinesMembers(fields: seq<(string, string)>)
    ensures forall l :: l in MedicalLines(fields) <==> exists i :: 0 <= i < |fields| && MedicalLine(fields[i]) == Some(l)
  {
    Seqs.FilterMapMembers(fields, MedicalLine);
  }

  /** `sep.join(parts)` for a separator of any length. */
  function JoinWith(parts: seq<string>, sep: string): string {
    if |parts| == 0 then "" else if |parts| == 1 then parts[0] else parts[0] + sep + JoinWith(parts[1..], sep)
  }

  /**
   * `include_medical_in_emergency` as written: the separator is the two
   * characters backslash and 'n', so the lines are not broken. `None` when
   * no field is filled in.
   */
  function IncludeMedicalAsWritten(current: string, fields: seq<(string, string)>): (r: Option<string>)
    ensures r.None? <==> forall i :: 0 <= i < |fields| ==> Strip(fields[i].1) == ""
    ensures r.Some? ==> |r.value| > |current| + 1 && r.value[..|current|] == current
  {
    var lines := MedicalLines(fields);
    MedicalLinesEmpty(fields);
    if lines == [] then None
    else
      var block := "\\n\\nMEDICAL INFO:\\n" + JoinWith(lines, "\\n");
      PrefixOf(current, block);
      Some(current + block)
  }

  lemma PrefixOf(a: string, b: string)
    ensures (a + b)[..|a|] == a && |a + b| == |a| + |b|
  {
  }

  /** No line break in any of the typed text. */
  predicate SingleLineInput(current: string, fields: seq<(string, string)>) {
    '\n' !in current && forall i :: 0 <= i < |fields| ==> '\n' !in fields[i].0 && '\n' !in fields[i].1
  }

  /**
   * As written, the typed message is followed by a backslash and an 'n'
   * rather than a line break, so the heading and the fields run on in the
   * same line; the corrected text breaks the line there and its first line
   * is the typed message.
   */
  lemma MedicalSeparator(current: string, fields: seq<(string, string)>)
    requires MedicalLines(fields) != [] && SingleLineInput(current, fields)
    ensures IncludeMedicalAsWritten(current, fields).value[|current|] == '\\'
    ensures var r := IncludeMedical(current, fields).value;
      r[|current|] == '\n' && Split(r, '\n')[0] == current
  {
    var lines := MedicalLines(fields);
    var block := "\\n\\nMEDICAL INFO:\\n" + JoinWith(lines, "\\n");
    assert (current + block)[|current|] == block[0];
    IncludeMedicalLines(current, fields);
    var fixed := "\n\nMEDICAL INFO:\n" + Join(lines, '\n');
    assert (current + fixed)[|current|] == fixed[0];
  }

  lemma {:induction false} JoinWithNoNewline(parts: seq<string>, sep: string)
    requires '\n' !in sep && forall i :: 0 <= i < |parts| ==> '\n' !in parts[i]
    ensures '\n' !in JoinWith(parts, sep)
  {
    if |parts| > 1 {
      JoinWithNoNewline(parts[1..], sep);
    }
  }

  /** The evidently intended behaviour: the medical block on lines of its own. */
  function IncludeMedical(current: string, fields: seq<(string, string)>): (r: Option<string>)
    ensures r.None? <==> forall i :: 0 <= i < |fields| ==> Strip(fields[i].1) == ""
    ensures r.Some? ==> |r.value| > |current| && r.value[..|current|] == current
  {
    var lines := MedicalLines(fields);
    MedicalLinesEmpty(fields);
    if lines == [] then None
    else
      var block := "\n\nMEDICAL INFO:\n" + Join(lines, '\n');
      PrefixOf(current, block);
      Some(current + block)
  }

  /**
   * Splitting the corrected message into lines gives back the original
   * message, a blank line, the heading and one line per filled-in field.
   */
  lemma IncludeMedicalLines(current: string, fields: seq<(string, string)>)
    requires MedicalLines(fields) != [] && SingleLineInput(current, fields)
    ensures Split(IncludeMedical(current, fields).value, '\n') == [current, "", "MEDICAL INFO:"] + MedicalLines(fields)
  {
    var lines := MedicalLines(fields);
    var front := [current, "", "MEDICAL INFO:"];
    IncludeMedicalValue(current, fields);
    JoinHeading(current, lines);
    MessageLinesSingle(current, fields);
    SplitJoin(front + lines, '\n');
  }

  lemma IncludeMedicalValue(current: string, fields: seq<(string, string)>)
    requires MedicalLines(fields) != []
    ensures IncludeMedical(current, fields) == Some(current + ("\n\nMEDICAL INFO:\n" + Join(MedicalLines(fields), '\n')))
  {
  }

  /** With single-line input, no line of the corrected message holds a line break. */
  lemma MessageLinesSingle(current: string, fields: seq<(string, string)>)
    requires SingleLineInput(current, fields)
    ensures var parts := [current, "", "MEDICAL INFO:"] + MedicalLines(fields);
      forall i :: 0 <= i < |parts| ==> '\n' !in parts[i]
  {
    var front := [current, "", "MEDICAL INFO:"];
    LinesSingle(fields);
    assert '\n' !in "MEDICAL INFO:";
    assert forall i :: 0 <= i < |front| ==> '\n' !in front[i];
    NoNewlineParts(front, MedicalLines(fields));
  }

  lemma JoinHeading(current: string, lines: seq<string>)
    requires lines != []
    ensures Join([current, "", "MEDICAL INFO:"] + lines, '\n') == current + ("\n\nMEDICAL INFO:\n" + Join(lines, '\n'))
  {
    var parts := [current, "", "MEDICAL INFO:"] + lines;
    var j := Join(lines, '\n');
    assert parts[1..] == ["", "MEDICAL INFO:"] + lines;
    assert parts[1..][1..] == ["MEDICAL INFO:"] + lines;
    assert parts[1..][1..][1..] == lines;
    assert Join(parts[1..][1..], '\n') == "MEDICAL INFO:" + ['\n'] + j;
    assert Join(parts[1..], '\n') == "" + ['\n'] + ("MEDICAL INFO:" + ['\n'] + j);
    HeadingParts(current, j);
  }

  lemma HeadingParts(current: string, j: string)
    ensures current + ['\n'] + ("" + ['\n'] + ("MEDICAL INFO:" + ['\n'] + j)) == current + ("\n\nMEDICAL INFO:\n" + j)
  {
  }

  lemma NoNewlineConcat(a: string, b: string)
    requires '\n' !in a && '\n' !in b
    ensures '\n' !in a + b
  {
  }

  lemma NoNewlineParts(a: seq<string>, b: seq<string>)
    requires forall i :: 0 <= i < |a| ==> '\n' !in a[i]
    requires forall i :: 0 <= i < |b| ==> '\n' !in b[i]
    ensures forall i :: 0 <= i < |a + b| ==> '\n' !in (a + b)[i]
  {
    forall i | 0 <= i < |a + b|
      ensures '\n' !in (a + b)[i]
    {
      if i >= |a| {
        assert (a + b)[i] == b[i - |a|];
      }
    }
  }

  lemma LinesSingle(fields: seq<(string, string)>)
    requires forall i :: 0 <= i < |fields| ==> '\n' !in fields[i].0 && '\n' !in fields[i].1
    ensures forall i :: 0 <= i < |MedicalLines(fields)| ==> '\n' !in MedicalLines(fields)[i]
  {
    var lines := MedicalLines(fields);
    MedicalLinesMembers(fields);
    forall i | 0 <= i < |lines|
      ensures '\n' !in lines[i]
    {
      assert lines[i] in lines;
      var j :| 0 <= j < |fields| && MedicalLine(fields[j]) == Some(lines[i]);
      NoNewlineInLine(fields[j].0, fields[j].1);
    }
  }

  lemma CaseKeepsNewline(c: char)
    requires c != '\n'
    ensures LowerChar(c) != '\n' && UpperChar(c) != '\n'
  {
  }

  lemma NoNewlineInLine(key: string, value: string)
    requires '\n' !in key && '\n' !in value
    ensures '\n' !in FieldLabel(key) + ": " + Strip(value)
  {
    var k := ReplaceChar(key, '_', ' ');
    assert forall i :: 0 <= i < |k| ==> k[i] != '\n' by {
      forall i | 0 <= i < |k| ensures k[i] != '\n' { assert key[i] in key; }
    }
    TitleNoNewline(k);
    StripNoNewline(value);
    assert '\n' !in ": ";
    NoNewlineConcat(FieldLabel(key), ": ");
    NoNewlineConcat(FieldLabel(key) + ": ", Strip(value));
  }

  lemma TitleNoNewline(k: string)
    requires forall i :: 0 <= i < |k| ==> k[i] != '\n'
    ensures '\n' !in Title(k)
  {
    var t := Title(k);
    forall i | 0 <= i < |t|
      ensures t[i] != '\n'
    {
      CaseKeepsNewline(k[i]);
      assert t[i] == (if i > 0 && IsLetter(k[i - 1]) then LowerChar(k[i]) else UpperChar(k[i]));
    }
  }

  lemma StripNoNewline(value: string)
    requires '\n' !in value
    ensures '\n' !in Strip(value)
  {
    var l := StripLeft(value);
    NotInSlice(value, '\n', |value| - |l|, |value|);
    NotInSlice(l, '\n', 0, |Strip(value)|);
  }

  lemma NotInSlice(s: string, c: char, i: int, j: int)
    requires 0 <= i <= j <= |s| && c !in s
    ensures c !in s[i..j]
  {
    forall k | 0 <= k < j - i ensures s[i..j][k] != c {
      assert s[i + k] in s;
    }
  }
}
