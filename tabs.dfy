/**
 * The editor's tab bar: a list of file tabs, the id of the active one and the counter
 * that fresh ids are drawn from. Every operation builds a new list from the old one
 * (`map`, `filter`, spread), so each is a function here; the class in playground.dfy
 * assigns their results to its fields.
 */
module Tabs {
  import opened Text

  /** One file tab. The source's optional `isEditing` is `editing`, with "absent" as false. */
  datatype Tab = Tab(id: string, name: string, content: string, editing: bool)

  /** The tab list, the active tab's id and `nextTabId`. */
  datatype TabBar = TabBar(tabs: seq<Tab>, active: string, nextId: int)

  /** The welcome program a new playground and "reset" show. */
  const DefaultCode: string :=
    "// \U{1F389} Welcome to JavaScript Playground \U{1F389}\n"
    + "// Write, experiment, and have fun!\n"
    + "\n"
    + "function greet(name) {\n"
    + "    return \"\U{1F44B} Hello, \" + name + \"! Welcome to your playground.\";\n"
    + "}\n"
    + "console.log(greet(\"Developer\"));"

  const UntitledName: string := "untitled.js"
  const UntitledContent: string := "// Start coding here\n"

  /** The tab a playground without saved tabs starts with. */
  const MainTab: Tab := Tab("tab-1", "main.js", DefaultCode, false)

  /** The id `tab-k` of the k-th tab ever created. */
  function TabId(k: int): string {
    "tab-" + IntToString(k)
  }

  lemma TabIdInjective(a: int, b: int)
    requires TabId(a) == TabId(b)
    ensures a == b
  {
    assert IntToString(a) == TabId(a)[4..];
    assert IntToString(b) == TabId(b)[4..];
    IntToStringInjective(a, b);
  }

  /** Two different counter values give two different ids. */
  lemma TabIdDistinct(a: int, b: int)
    requires a != b
    ensures TabId(a) != TabId(b)
  {
    if TabId(a) == TabId(b) {
      TabIdInjective(a, b);
    }
  }

  function Ids(tabs: seq<Tab>): (r: seq<string>)
    ensures |r| == |tabs|
    ensures forall i :: 0 <= i < |tabs| ==> r[i] == tabs[i].id
  {
    seq(|tabs|, i requires 0 <= i < |tabs| => tabs[i].id)
  }

  ghost predicate UniqueIds(tabs: seq<Tab>) {
    forall i, j :: 0 <= i < j < |tabs| ==> tabs[i].id != tabs[j].id
  }

  /** `id` is `tab-k` for some k the counter has already handed out. */
  ghost predicate Issued(id: string, nextId: int) {
    exists k :: 1 <= k <= nextId && id == TabId(k)
  }

  /** Every tab's id has been issued by the counter. */
  ghost predicate AllIssued(tabs: seq<Tab>, nextId: int) {
    forall i :: 0 <= i < |tabs| ==> Issued(tabs[i].id, nextId)
  }

  /** What the tab operations keep: at least one tab, distinct ids, every id issued by the
      counter, and the active id naming one of the tabs. */
  ghost predicate Valid(bar: TabBar) {
    && |bar.tabs| >= 1
    && UniqueIds(bar.tabs)
    && AllIssued(bar.tabs, bar.nextId)
    && bar.active in Ids(bar.tabs)
  }

  /** The start-up tab bar satisfies the invariant. */
  lemma InitialValid()
    ensures Valid(TabBar([MainTab], "tab-1", 1))
  {
    assert MainTab.id == TabId(1);
    assert Ids([MainTab]) == ["tab-1"];
  }

  /** `addNewTab`: one untitled tab appended with the next id, which becomes active. */
  function AddTab(bar: TabBar): (r: TabBar)
    ensures |r.tabs| == |bar.tabs| + 1 && r.tabs[..|bar.tabs|] == bar.tabs
    ensures r.tabs[|bar.tabs|] == Tab(TabId(bar.nextId + 1), UntitledName, UntitledContent, false)
    ensures r.active == r.tabs[|bar.tabs|].id
    ensures r.nextId == bar.nextId + 1
  {
    var id := TabId(bar.nextId + 1);
    TabBar(bar.tabs + [Tab(id, UntitledName, UntitledContent, false)], id, bar.nextId + 1)
  }

  /** An id the counter has issued is never the one it hands out next. */
  lemma IssuedNotNext(id: string, nextId: int)
    requires Issued(id, nextId)
    ensures id != TabId(nextId + 1)
  {
    var k :| 1 <= k <= nextId && id == TabId(k);
    TabIdDistinct(k, nextId + 1);
  }

  /** Advancing the counter keeps an issued id issued. */
  lemma IssuedLater(id: string, nextId: int)
    requires Issued(id, nextId)
    ensures Issued(id, nextId + 1)
  {
    var k :| 1 <= k <= nextId && id == TabId(k);
    assert 1 <= k <= nextId + 1 && id == TabId(k);
  }

  /** Advancing the counter keeps every id issued, and the id it hands out is new. */
  lemma AllIssuedNext(tabs: seq<Tab>, nextId: int)
    requires AllIssued(tabs, nextId)
    ensures AllIssued(tabs, nextId + 1)
    ensures TabId(nextId + 1) !in Ids(tabs)
  {
    forall i | 0 <= i < |tabs|
      ensures Issued(tabs[i].id, nextId + 1) && Ids(tabs)[i] != TabId(nextId + 1)
    {
      IssuedNotNext(tabs[i].id, nextId);
      IssuedLater(tabs[i].id, nextId);
    }
  }

  /** Appending a tab with a new, issued id keeps the ids distinct and issued. */
  lemma AppendFresh(tabs: seq<Tab>, t: Tab, nextId: int)
    requires UniqueIds(tabs) && AllIssued(tabs, nextId)
    requires t.id !in Ids(tabs) && Issued(t.id, nextId)
    ensures UniqueIds(tabs + [t]) && AllIssued(tabs + [t], nextId)
    ensures Ids(tabs + [t]) == Ids(tabs) + [t.id]
  {
    var r := tabs + [t];
    assert forall i :: 0 <= i < |tabs| ==> r[i] == tabs[i];
    forall i, j | 0 <= i < j < |r| ensures r[i].id != r[j].id {
      if j == |tabs| {
        assert Ids(tabs)[i] == r[i].id;
      }
    }
    forall i | 0 <= i < |r| ensures Issued(r[i].id, nextId) {
      if i < |tabs| {
        assert r[i] == tabs[i];
      }
    }
    assert Ids(r) == Ids(tabs) + [t.id];
  }

  /** The new id differs from every issued one, so adding a tab keeps the invariant. */
  lemma AddTabKeepsValid(bar: TabBar)
    requires Valid(bar)
    ensures Valid(AddTab(bar))
    ensures AddTab(bar).active !in Ids(bar.tabs)
  {
    var r := AddTab(bar);
    var t := r.tabs[|bar.tabs|];
    assert r.tabs == bar.tabs + [t];
    AllIssuedNext(bar.tabs, bar.nextId);
    assert Issued(t.id, r.nextId);
    AppendFresh(bar.tabs, t, r.nextId);
  }

  /** After adding a tab, the code of the active tab is the untitled tab's. */
  lemma AddTabCurrentCode(bar: TabBar)
    requires Valid(bar)
    ensures CurrentCode(AddTab(bar).tabs, AddTab(bar).active) == UntitledContent
  {
    var r := AddTab(bar);
    var k := |bar.tabs|;
    AddTabKeepsValid(bar);
    forall j | 0 <= j < k ensures r.tabs[j].id != r.active {
      assert r.tabs[j] == bar.tabs[j];
      assert Ids(bar.tabs)[j] == r.tabs[j].id;
    }
    CurrentCodeFirst(r.tabs, r.active, k);
  }

  /** `tabs.filter(tab => tab.id !== id)`. */
  function Without(tabs: seq<Tab>, id: string): (r: seq<Tab>)
    ensures |r| <= |tabs|
  {
    if tabs == [] then []
    else if tabs[0].id == id then Without(tabs[1..], id)
    else [tabs[0]] + Without(tabs[1..], id)
  }

  /** The filter keeps exactly the tabs whose id differs from `id`. */
  lemma {:induction false} WithoutMembers(tabs: seq<Tab>, id: string)
    ensures forall t :: t in Without(tabs, id) <==> t in tabs && t.id != id
  {
    if tabs != [] {
      WithoutMembers(tabs[1..], id);
      assert tabs == [tabs[0]] + tabs[1..];
    }
  }

  /** Filtering out an id no tab has changes nothing. */
  lemma {:induction false} WithoutAbsent(tabs: seq<Tab>, id: string)
    requires id !in Ids(tabs)
    ensures Without(tabs, id) == tabs
  {
    if tabs != [] {
      assert Ids(tabs)[0] == tabs[0].id;
      assert id !in Ids(tabs[1..]) by {
        forall j | 0 <= j < |tabs| - 1 ensures Ids(tabs[1..])[j] != id {
          assert Ids(tabs[1..])[j] == Ids(tabs)[j + 1];
        }
      }
      WithoutAbsent(tabs[1..], id);
      assert tabs == [tabs[0]] + tabs[1..];
    }
  }

  /** With distinct ids, filtering out the id of tab k removes exactly that tab and keeps the
      others in order. */
  lemma {:induction false} WithoutAt(tabs: seq<Tab>, id: string, k: nat)
    requires UniqueIds(tabs)
    requires k < |tabs| && tabs[k].id == id
    ensures Without(tabs, id) == tabs[..k] + tabs[k + 1..]
  {
    var rest := tabs[1..];
    assert UniqueIds(rest) by {
      forall i, j | 0 <= i < j < |rest| ensures rest[i].id != rest[j].id {
        assert rest[i] == tabs[i + 1] && rest[j] == tabs[j + 1];
      }
    }
    if k == 0 {
      assert id !in Ids(rest) by {
        forall j | 0 <= j < |rest| ensures Ids(rest)[j] != id {
          assert rest[j] == tabs[j + 1];
        }
      }
      WithoutAbsent(rest, id);
      assert tabs[..0] + tabs[1..] == rest;
    } else {
      assert tabs[0].id != id;
      assert Without(tabs, id) == [tabs[0]] + Without(rest, id);
      WithoutAt(rest, id, k - 1);
      assert tabs[..k] == [tabs[0]] + rest[..k - 1];
      assert tabs[k + 1..] == rest[k..];
    }
  }

  /** `closeTab` reading `newTabs[0].id` when no tab is left over: a TypeError. */
  predicate CloseFaults(bar: TabBar, id: string) {
    |bar.tabs| > 1 && bar.active == id && Without(bar.tabs, id) == []
  }

  /** `closeTab`. With a single tab nothing happens; otherwise the tabs carrying `id` go, and
      if the active tab went the first remaining one becomes active. When the lookup of the
      first remaining tab throws, the filtered list set just before the throw stands and the
      active id is untouched. */
  function Close(bar: TabBar, id: string): (r: TabBar)
    ensures r.nextId == bar.nextId
  {
    if |bar.tabs| > 1 then
      var rest := Without(bar.tabs, id);
      if bar.active == id && rest != [] then TabBar(rest, rest[0].id, bar.nextId)
      else TabBar(rest, bar.active, bar.nextId)
    else bar
  }

  /** Closing the last remaining tab is a no-op. */
  lemma CloseSingle(bar: TabBar, id: string)
    requires |bar.tabs| <= 1
    ensures Close(bar, id) == bar
  {
  }

  /** Closing a tab no tab has the id of changes nothing. */
  lemma CloseAbsent(bar: TabBar, id: string)
    requires id !in Ids(bar.tabs) && bar.active != id
    ensures Close(bar, id) == bar
  {
    WithoutAbsent(bar.tabs, id);
  }

  /** With distinct ids and more than one tab, closing tab k removes exactly that tab and
      keeps the others in order; the active id moves to the first remaining tab only when
      tab k was active. */
  lemma CloseAt(bar: TabBar, id: string, k: nat)
    requires UniqueIds(bar.tabs) && |bar.tabs| > 1
    requires k < |bar.tabs| && bar.tabs[k].id == id
    ensures Close(bar, id).tabs == bar.tabs[..k] + bar.tabs[k + 1..]
    ensures Close(bar, id).active ==
      if bar.active != id then bar.active
      else if k == 0 then bar.tabs[1].id
      else bar.tabs[0].id
    ensures !CloseFaults(bar, id)
  {
    WithoutAt(bar.tabs, id, k);
    var rest := bar.tabs[..k] + bar.tabs[k + 1..];
    assert |rest| == |bar.tabs| - 1;
    assert k == 0 ==> rest[0] == bar.tabs[1];
    assert k > 0 ==> rest[0] == bar.tabs[0];
  }

  /** Dropping tab k keeps the ids distinct and issued, and keeps every other tab. */
  lemma DropKeeps(tabs: seq<Tab>, k: nat, nextId: int)
    requires k < |tabs| && UniqueIds(tabs) && AllIssued(tabs, nextId)
    ensures var r := tabs[..k] + tabs[k + 1..];
      && |r| == |tabs| - 1
      && (forall i :: 0 <= i < |r| ==> r[i] == tabs[if i < k then i else i + 1])
      && UniqueIds(r)
      && AllIssued(r, nextId)
  {
    var r := tabs[..k] + tabs[k + 1..];
    assert forall i :: 0 <= i < |r| ==> r[i] == tabs[if i < k then i else i + 1];
  }

  /** Closing keeps the invariant and, under it, never faults and never empties the list. */
  lemma CloseKeepsValid(bar: TabBar, id: string)
    requires Valid(bar)
    ensures !CloseFaults(bar, id)
    ensures Valid(Close(bar, id))
  {
    if id !in Ids(bar.tabs) {
      CloseAbsent(bar, id);
    } else if |bar.tabs| > 1 {
      var k :| 0 <= k < |bar.tabs| && Ids(bar.tabs)[k] == id;
      CloseAtKeepsValid(bar, id, k);
    }
  }

  lemma CloseAtKeepsValid(bar: TabBar, id: string, k: nat)
    requires Valid(bar) && |bar.tabs| > 1
    requires k < |bar.tabs| && bar.tabs[k].id == id
    ensures !CloseFaults(bar, id)
    ensures Valid(Close(bar, id))
  {
    CloseAt(bar, id, k);
    DropKeeps(bar.tabs, k, bar.nextId);
    var r := Close(bar, id);
    if bar.active == id {
      assert Ids(r.tabs)[0] == r.active;
    } else {
      var j :| 0 <= j < |bar.tabs| && Ids(bar.tabs)[j] == bar.active;
      assert j != k;
      var jj := if j < k then j else j - 1;
      assert r.tabs[jj] == bar.tabs[j];
      assert Ids(r.tabs)[jj] == bar.active;
    }
  }

  /** A closed tab that was just added gives back the old list. */
  lemma AddThenClose(bar: TabBar)
    requires Valid(bar)
    ensures Close(AddTab(bar), AddTab(bar).active).tabs == bar.tabs
    ensures Close(AddTab(bar), AddTab(bar).active).active == bar.tabs[0].id
  {
    var a := AddTab(bar);
    AddTabKeepsValid(bar);
    CloseAt(a, a.active, |bar.tabs|);
    assert a.tabs[..|bar.tabs|] == bar.tabs;
  }

  /** `startRenaming(id)`: exactly the tabs with that id are being edited; nothing else changes. */
  function StartEditing(tabs: seq<Tab>, id: string): (r: seq<Tab>)
    ensures |r| == |tabs|
    ensures forall i :: 0 <= i < |r| ==>
      && r[i].id == tabs[i].id && r[i].name == tabs[i].name && r[i].content == tabs[i].content
      && (r[i].editing <==> tabs[i].id == id)
  {
    seq(|tabs|, i requires 0 <= i < |tabs| => tabs[i].(editing := tabs[i].id == id))
  }

  /** `cancelRename`: no tab is being edited; nothing else changes. */
  function StopEditing(tabs: seq<Tab>): (r: seq<Tab>)
    ensures |r| == |tabs|
    ensures forall i :: 0 <= i < |r| ==>
      && r[i].id == tabs[i].id && r[i].name == tabs[i].name && r[i].content == tabs[i].content
      && !r[i].editing
  {
    seq(|tabs|, i requires 0 <= i < |tabs| => tabs[i].(editing := false))
  }

  /** Escape after starting a rename leaves the same tabs as cancelling straight away. */
  lemma StartThenStop(tabs: seq<Tab>, id: string)
    ensures StopEditing(StartEditing(tabs, id)) == StopEditing(tabs)
  {
  }

  /** The name a rename stores: `newName` itself when it already ends in ".js", otherwise
      `newName` with ".js" appended. */
  function JsName(newName: string): (r: string)
    ensures EndsWith(r, ".js")
    ensures r == newName || r == newName + ".js"
    ensures r == newName <==> EndsWith(newName, ".js")
  {
    if EndsWith(newName, ".js") then newName
    else
      assert (newName + ".js")[|newName|..] == ".js";
      newName + ".js"
  }

  /** `handleRename(id, newName)`. A name that is empty after trimming renames nothing and
      ends every edit; any other name renames the tabs with that id (and ends their edit)
      and leaves every other tab as it was. */
  function Renamed(tabs: seq<Tab>, id: string, newName: string): (r: seq<Tab>)
    ensures |r| == |tabs|
    ensures Blank(newName) ==> r == StopEditing(tabs)
    ensures !Blank(newName) ==> forall i :: 0 <= i < |r| ==>
      if tabs[i].id == id then
        && r[i].id == id && r[i].content == tabs[i].content && !r[i].editing
        && EndsWith(r[i].name, ".js")
        && r[i].name == (if EndsWith(newName, ".js") then newName else newName + ".js")
      else r[i] == tabs[i]
  {
    if Trim(newName) != "" then
      seq(|tabs|, i requires 0 <= i < |tabs| =>
        if tabs[i].id == id then tabs[i].(name := JsName(newName), editing := false) else tabs[i])
    else StopEditing(tabs)
  }

  /** Setting the content of the tabs with id `id` (`handleEditorChange` and `clearCode` on the
      active tab): their content becomes `c`, and nothing else changes. */
  function WithContent(tabs: seq<Tab>, id: string, c: string): (r: seq<Tab>)
    ensures |r| == |tabs|
    ensures forall i :: 0 <= i < |r| ==>
      && r[i].id == tabs[i].id && r[i].name == tabs[i].name && r[i].editing == tabs[i].editing
      && r[i].content == (if tabs[i].id == id then c else tabs[i].content)
  {
    seq(|tabs|, i requires 0 <= i < |tabs| => if tabs[i].id == id then tabs[i].(content := c) else tabs[i])
  }

  /** `getCurrentCode`: the content of the first tab with the active id, or "" when there is
      none (an empty content reads as "" too). */
  function CurrentCode(tabs: seq<Tab>, active: string): string
  {
    if tabs == [] then ""
    else if tabs[0].id == active then tabs[0].content
    else CurrentCode(tabs[1..], active)
  }

  /** The code is that of the first tab carrying the active id. */
  lemma {:induction false} CurrentCodeFirst(tabs: seq<Tab>, active: string, k: nat)
    requires k < |tabs| && tabs[k].id == active
    requires forall j :: 0 <= j < k ==> tabs[j].id != active
    ensures CurrentCode(tabs, active) == tabs[k].content
  {
    if k > 0 {
      assert tabs[1..][k - 1] == tabs[k];
      assert forall j :: 0 <= j < k - 1 ==> tabs[1..][j].id != active by {
        forall j | 0 <= j < k - 1 ensures tabs[1..][j].id != active {
          assert tabs[1..][j] == tabs[j + 1];
        }
      }
      CurrentCodeFirst(tabs[1..], active, k - 1);
    }
  }

  /** With no tab carrying the active id, the code is "". */
  lemma {:induction false} CurrentCodeAbsent(tabs: seq<Tab>, active: string)
    requires active !in Ids(tabs)
    ensures CurrentCode(tabs, active) == ""
  {
    if tabs != [] {
      assert Ids(tabs)[0] == tabs[0].id;
      assert active !in Ids(tabs[1..]) by {
        forall j | 0 <= j < |tabs| - 1 ensures Ids(tabs[1..])[j] != active {
          assert Ids(tabs[1..])[j] == Ids(tabs)[j + 1];
        }
      }
      CurrentCodeAbsent(tabs[1..], active);
    }
  }

  /** What an edit stores is what `getCurrentCode` then returns. */
  lemma {:induction false} ContentRoundTrip(tabs: seq<Tab>, id: string, c: string)
    requires id in Ids(tabs)
    ensures CurrentCode(WithContent(tabs, id, c), id) == c
  {
    var r := WithContent(tabs, id, c);
    if tabs[0].id != id {
      assert r[0].id != id;
      assert r[1..] == WithContent(tabs[1..], id, c);
      assert id in Ids(tabs[1..]) by {
        var j :| 0 <= j < |tabs| && Ids(tabs)[j] == id;
        assert j > 0;
        assert Ids(tabs[1..])[j - 1] == id;
      }
      ContentRoundTrip(tabs[1..], id, c);
    }
  }

  /** An update that keeps every tab's id keeps the invariant. */
  lemma SameIdsKeepValid(bar: TabBar, tabs: seq<Tab>)
    requires Valid(bar)
    requires |tabs| == |bar.tabs| && forall i :: 0 <= i < |tabs| ==> tabs[i].id == bar.tabs[i].id
    ensures Valid(bar.(tabs := tabs))
  {
    assert Ids(tabs) == Ids(bar.tabs);
  }
}
