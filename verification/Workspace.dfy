/**
 * Saved tabs and panes: reading any stored JSON back, and taking tabs that were kept aside out of a merged workspace
 * again.
 */
module Workspace {
  import opened Common

  /** A number as JSON text can give it; a literal that is too large reads as infinity. */
  datatype Number = Finite(r: real) | PlusInfinity | MinusInfinity

  datatype Json =
    | JNull
    | JBool(b: bool)
    | JNumber(n: Number)
    | JString(s: string)
    | JArray(items: seq<Json>)
    | JObject(fields: map<string, Json>)

  datatype TabKind = TableTab | QueryTab | ExplainTab

  datatype Selection = Selection(anchor: int, head: int)

  datatype Tab = Tab(
    kind: TabKind, title: string, sql: string, database: Option<string>, table: Option<string>,
    titleManual: bool, pinned: bool,
    builderSnapshot: Option<Json>, selection: Option<Selection>, gridScrollTop: Option<real>, pageSize: Option<int>)

  datatype Pane = Pane(tabs: seq<Tab>, activeIndex: int)

  datatype Workspace = Workspace(panes: seq<Pane>, activePane: int)

  const EMPTY_WORKSPACE := Workspace([], 0)

  function Trunc(r: real): int { if r >= 0.0 then r.Floor else -((-r).Floor) }

  // --- reading one tab ---

  function Field(j: Json, name: string): Option<Json> {
    if j.JObject? && name in j.fields then Some(j.fields[name]) else None
  }

  function StringField(j: Json, name: string): Option<string> {
    var f := Field(j, name);
    if f.Some? && f.value.JString? then Some(f.value.s) else None
  }

  /** Missing, null or a string. */
  predicate MaybeString(j: Json, name: string) {
    var f := Field(j, name);
    f.None? || f.value.JNull? || f.value.JString?
  }

  function KindFrom(s: string): Option<TabKind> {
    if s == "table" then Some(TableTab)
    else if s == "query" then Some(QueryTab)
    else if s == "explain" then Some(ExplainTab)
    else None
  }

  function KindOf(j: Json): Option<TabKind> {
    var s := StringField(j, "kind");
    if s.None? then None else KindFrom(s.value)
  }

  /** A finite number that is not negative. */
  function OffsetField(j: Json, name: string): Option<real> {
    var f := Field(j, name);
    if f.Some? && f.value.JNumber? && f.value.n.Finite? && f.value.n.r >= 0.0 then Some(f.value.n.r) else None
  }

  predicate ValidTab(j: Json) {
    j.JObject? && KindOf(j).Some? && StringField(j, "title").Some? && StringField(j, "sql").Some? &&
    MaybeString(j, "database") && MaybeString(j, "table")
  }

  function SelectionFrom(j: Json): Option<Selection> {
    var anchor, head := OffsetField(j, "anchor"), OffsetField(j, "head");
    if anchor.Some? && head.Some? then Some(Selection(Trunc(anchor.value), Trunc(head.value))) else None
  }

  function SelectionOf(j: Json): Option<Selection> {
    var f := Field(j, "selection");
    if f.None? then None else SelectionFrom(f.value)
  }

  function PageSizeOf(j: Json): Option<int> {
    var f := OffsetField(j, "pageSize");
    if f.Some? && Trunc(f.value) > 0 then Some(Trunc(f.value)) else None
  }

  /** A tab with only the fields that can be trusted; `validSnapshot` is the check on query builder snapshots. */
  function SanitizeTab(j: Json, validSnapshot: Json -> bool): Option<Tab> {
    if !ValidTab(j) then None
    else
      var snapshot := Field(j, "builderSnapshot");
      Some(Tab(
        KindOf(j).value, StringField(j, "title").value, StringField(j, "sql").value, StringField(j, "database"),
        StringField(j, "table"),
        Field(j, "titleManual") == Some(JBool(true)), Field(j, "pinned") == Some(JBool(true)),
        if snapshot.Some? && validSnapshot(snapshot.value) then snapshot else None,
        SelectionOf(j), OffsetField(j, "gridScrollTop"), PageSizeOf(j)))
  }

  function SanitizeTabs(raw: seq<Json>, validSnapshot: Json -> bool): seq<Tab> {
    if raw == [] then []
    else
      var t := SanitizeTab(raw[0], validSnapshot);
      (if t.Some? then [t.value] else []) + SanitizeTabs(raw[1..], validSnapshot)
  }

  // --- reading a workspace ---

  function ActiveIndexOf(j: Json, count: nat): int {
    var f := Field(j, "activeIndex");
    if f.Some? && f.value.JNumber? && f.value.n.Finite? && 0 <= Trunc(f.value.n.r) < count then Trunc(f.value.n.r)
    else 0
  }

  function PaneOf(j: Json, validSnapshot: Json -> bool): Option<Pane> {
    var tabs := Field(j, "tabs");
    if tabs.None? || !tabs.value.JArray? then None
    else
      var valid := SanitizeTabs(tabs.value.items, validSnapshot);
      if valid == [] then None else Some(Pane(valid, ActiveIndexOf(j, |valid|)))
  }

  datatype KeptPane = KeptPane(pane: Pane, origIndex: nat)

  /** The panes with tabs, each with its position in the stored list. */
  function KeptPanes(raw: seq<Json>, from: nat, validSnapshot: Json -> bool): seq<KeptPane>
    requires from <= |raw|
    decreases |raw| - from
  {
    if from == |raw| then []
    else
      var p := PaneOf(raw[from], validSnapshot);
      (if p.Some? then [KeptPane(p.value, from)] else []) + KeptPanes(raw, from + 1, validSnapshot)
  }

  function PanesOf(kept: seq<KeptPane>): seq<Pane> { seq(|kept|, i requires 0 <= i < |kept| => kept[i].pane) }

  function FindOrig(kept: seq<KeptPane>, orig: int): Option<nat> {
    if kept == [] then None
    else if kept[0].origIndex == orig then Some(0)
    else
      var rest := FindOrig(kept[1..], orig);
      if rest.None? then None else Some(rest.value + 1)
  }

  /** The stored position of the active pane, or the nearest pane towards the end. */
  function ActivePaneOf(active: Option<Json>, kept: seq<KeptPane>): int
    requires kept != []
  {
    if active.None? || !active.value.JNumber? then 0
    else
      match active.value.n
      case PlusInfinity => |kept| - 1
      case MinusInfinity => (var mapped := FindOrig(kept, 0); if mapped.Some? then mapped.value else 0)
      case Finite(r) =>
        var orig := Max(0, Trunc(r));
        var mapped := FindOrig(kept, orig);
        if mapped.Some? then mapped.value else Min(orig, |kept| - 1)
  }

  function Normalize(parsed: Json, validSnapshot: Json -> bool): Workspace {
    if parsed.JArray? then
      var tabs := SanitizeTabs(parsed.items, validSnapshot);
      if tabs == [] then EMPTY_WORKSPACE else Workspace([Pane(tabs, 0)], 0)
    else
      var panes := Field(parsed, "panes");
      if panes.None? || !panes.value.JArray? then EMPTY_WORKSPACE
      else
        var kept := KeptPanes(panes.value.items, 0, validSnapshot);
        if kept == [] then EMPTY_WORKSPACE
        else Workspace(PanesOf(kept), ActivePaneOf(Field(parsed, "activePane"), kept))
  }

  // --- what a normalized workspace is ---

  predicate NormalTab(t: Tab, validSnapshot: Json -> bool) {
    && (t.builderSnapshot.Some? ==> validSnapshot(t.builderSnapshot.value))
    && (t.selection.Some? ==> t.selection.value.anchor >= 0 && t.selection.value.head >= 0)
    && (t.gridScrollTop.Some? ==> t.gridScrollTop.value >= 0.0)
    && (t.pageSize.Some? ==> t.pageSize.value > 0)
  }

  predicate NormalPane(p: Pane, validSnapshot: Json -> bool) {
    0 <= p.activeIndex < |p.tabs| && forall i :: 0 <= i < |p.tabs| ==> NormalTab(p.tabs[i], validSnapshot)
  }

  /** No empty pane, every index in range, every field valid. */
  predicate Normal(w: Workspace, validSnapshot: Json -> bool) {
    && (forall i :: 0 <= i < |w.panes| ==> NormalPane(w.panes[i], validSnapshot))
    && (if w.panes == [] then w.activePane == 0 else 0 <= w.activePane < |w.panes|)
  }

  lemma {:induction false} SanitizedAreNormal(raw: seq<Json>, validSnapshot: Json -> bool)
    ensures forall t :: t in SanitizeTabs(raw, validSnapshot) ==> NormalTab(t, validSnapshot)
  {
    if raw != [] {
      SanitizedAreNormal(raw[1..], validSnapshot);
      var t := SanitizeTab(raw[0], validSnapshot);
      if t.Some? {
        hide ValidTab, KindOf;
        assert NormalTab(t.value, validSnapshot);
      }
    }
  }

  lemma {:induction false} KeptAreNormal(raw: seq<Json>, from: nat, validSnapshot: Json -> bool)
    requires from <= |raw|
    ensures forall k :: k in KeptPanes(raw, from, validSnapshot) ==>
            NormalPane(k.pane, validSnapshot) && from <= k.origIndex < |raw|
    decreases |raw| - from
  {
    if from < |raw| {
      KeptAreNormal(raw, from + 1, validSnapshot);
      var tabs := Field(raw[from], "tabs");
      if tabs.Some? && tabs.value.JArray? {
        SanitizedAreNormal(tabs.value.items, validSnapshot);
      }
      hide SanitizeTabs, NormalTab;
    }
  }

  lemma {:induction false} FoundInRange(kept: seq<KeptPane>, orig: int)
    ensures match FindOrig(kept, orig)
            case None => forall k :: k in kept ==> k.origIndex != orig
            case Some(i) => i < |kept| && kept[i].origIndex == orig
  {
    if kept != [] {
      FoundInRange(kept[1..], orig);
    }
  }

  /** Whatever was stored, the result has no empty pane and no index out of range. */
  lemma NormalizeIsNormal(parsed: Json, validSnapshot: Json -> bool)
    ensures Normal(Normalize(parsed, validSnapshot), validSnapshot)
  {
    hide NormalTab, SanitizeTabs, KeptPanes;
    if parsed.JArray? {
      SanitizedAreNormal(parsed.items, validSnapshot);
    } else {
      var panes := Field(parsed, "panes");
      if panes.Some? && panes.value.JArray? {
        KeptAreNormal(panes.value.items, 0, validSnapshot);
        var kept := KeptPanes(panes.value.items, 0, validSnapshot);
        forall orig: int ensures FindOrig(kept, orig).Some? ==> FindOrig(kept, orig).value < |kept| {
          FoundInRange(kept, orig);
        }
      }
    }
  }

  // --- storing a workspace ---

  function KindText(k: TabKind): string {
    match k case TableTab => "table" case QueryTab => "query" case ExplainTab => "explain"
  }

  function JInt(n: int): Json { JNumber(Finite(n as real)) }

  function MapString(s: Option<string>): Option<Json> { if s.None? then None else Some(JString(s.value)) }

  function FlagJson(b: bool): Option<Json> { if b then Some(JBool(true)) else None }

  function SelectionJson(s: Selection): Json { JObject(map["anchor" := JInt(s.anchor), "head" := JInt(s.head)]) }

  const TAB_FIELDS: set<string> := {
    "kind", "title", "sql", "database", "table", "titleManual", "pinned", "builderSnapshot", "selection",
    "gridScrollTop", "pageSize"}

  /** What a tab stores under a name; absent fields are left out. */
  function Stored(t: Tab, name: string): Option<Json> {
    if name == "kind" then Some(JString(KindText(t.kind)))
    else if name == "title" then Some(JString(t.title))
    else if name == "sql" then Some(JString(t.sql))
    else if name == "database" then MapString(t.database)
    else if name == "table" then MapString(t.table)
    else if name == "titleManual" then FlagJson(t.titleManual)
    else if name == "pinned" then FlagJson(t.pinned)
    else if name == "builderSnapshot" then t.builderSnapshot
    else if name == "selection" then (if t.selection.None? then None else Some(SelectionJson(t.selection.value)))
    else if name == "gridScrollTop" then
      (if t.gridScrollTop.None? then None else Some(JNumber(Finite(t.gridScrollTop.value))))
    else if name == "pageSize" then (if t.pageSize.None? then None else Some(JInt(t.pageSize.value)))
    else None
  }

  function TabJson(t: Tab): Json {
    JObject(map name | name in TAB_FIELDS && Stored(t, name).Some? :: Stored(t, name).value)
  }

  function TabsJson(tabs: seq<Tab>): (raw: seq<Json>)
    ensures |raw| == |tabs| && forall i :: 0 <= i < |tabs| ==> raw[i] == TabJson(tabs[i])
  {
    seq(|tabs|, i requires 0 <= i < |tabs| => TabJson(tabs[i]))
  }

  function PaneJson(p: Pane): Json {
    JObject(map["tabs" := JArray(TabsJson(p.tabs)), "activeIndex" := JInt(p.activeIndex)])
  }

  function PanesJson(panes: seq<Pane>): (raw: seq<Json>)
    ensures |raw| == |panes| && forall i :: 0 <= i < |panes| ==> raw[i] == PaneJson(panes[i])
  {
    seq(|panes|, i requires 0 <= i < |panes| => PaneJson(panes[i]))
  }

  function WorkspaceJson(w: Workspace): Json {
    JObject(map["panes" := JArray(PanesJson(w.panes)), "activePane" := JInt(w.activePane)])
  }

  lemma TruncOfInt(n: int)
    ensures Trunc(n as real) == n
  {
  }

  lemma StoredField(t: Tab, name: string)
    requires name in TAB_FIELDS
    ensures Field(TabJson(t), name) == Stored(t, name)
  {
    hide Stored;
  }

  lemma StoredFields(t: Tab)
    ensures Stored(t, "kind") == Some(JString(KindText(t.kind))) && Stored(t, "title") == Some(JString(t.title))
    ensures Stored(t, "sql") == Some(JString(t.sql)) && Stored(t, "database") == MapString(t.database)
    ensures Stored(t, "table") == MapString(t.table) && Stored(t, "titleManual") == FlagJson(t.titleManual)
    ensures Stored(t, "pinned") == FlagJson(t.pinned) && Stored(t, "builderSnapshot") == t.builderSnapshot
    ensures Stored(t, "selection") == if t.selection.None? then None else Some(SelectionJson(t.selection.value))
    ensures Stored(t, "gridScrollTop") ==
            if t.gridScrollTop.None? then None else Some(JNumber(Finite(t.gridScrollTop.value)))
    ensures Stored(t, "pageSize") == if t.pageSize.None? then None else Some(JInt(t.pageSize.value))
  {
  }

  lemma KindRoundTrip(k: TabKind)
    ensures KindFrom(KindText(k)) == Some(k)
  {
  }

  lemma SelectionRoundTrip(s: Selection)
    requires s.anchor >= 0 && s.head >= 0
    ensures SelectionFrom(SelectionJson(s)) == Some(s)
  {
    TruncOfInt(s.anchor);
    TruncOfInt(s.head);
    hide Trunc;
  }

  lemma TextRoundTrip(t: Tab)
    ensures var j := TabJson(t);
            KindOf(j) == Some(t.kind) && StringField(j, "title") == Some(t.title) &&
            StringField(j, "sql") == Some(t.sql) &&
            StringField(j, "database") == t.database && StringField(j, "table") == t.table &&
            MaybeString(j, "database") && MaybeString(j, "table")
  {
    StoredFields(t);
    StoredField(t, "kind");
    StoredField(t, "title");
    StoredField(t, "sql");
    StoredField(t, "database");
    StoredField(t, "table");
    hide TabJson, Stored, Field, KindFrom, KindText;
    KindRoundTrip(t.kind);
  }

  lemma FlagsRoundTrip(t: Tab)
    ensures var j := TabJson(t);
            (Field(j, "titleManual") == Some(JBool(true)) <==> t.titleManual) &&
            (Field(j, "pinned") == Some(JBool(true)) <==> t.pinned) &&
            Field(j, "builderSnapshot") == t.builderSnapshot
  {
    StoredFields(t);
    StoredField(t, "titleManual");
    StoredField(t, "pinned");
    StoredField(t, "builderSnapshot");
    hide TabJson, Stored, Field;
  }

  lemma NumbersRoundTrip(t: Tab)
    requires t.selection.Some? ==> t.selection.value.anchor >= 0 && t.selection.value.head >= 0
    requires t.gridScrollTop.Some? ==> t.gridScrollTop.value >= 0.0
    requires t.pageSize.Some? ==> t.pageSize.value > 0
    ensures var j := TabJson(t);
            SelectionOf(j) == t.selection && OffsetField(j, "gridScrollTop") == t.gridScrollTop &&
            PageSizeOf(j) == t.pageSize
  {
    StoredFields(t);
    StoredField(t, "selection");
    StoredField(t, "gridScrollTop");
    StoredField(t, "pageSize");
    hide TabJson, Stored, Field, SelectionFrom, SelectionJson;
    if t.selection.Some? {
      SelectionRoundTrip(t.selection.value);
    }
    if t.pageSize.Some? {
      TruncOfInt(t.pageSize.value);
    }
    hide Trunc;
  }

  lemma TabRoundTrip(t: Tab, validSnapshot: Json -> bool)
    requires NormalTab(t, validSnapshot)
    ensures SanitizeTab(TabJson(t), validSnapshot) == Some(t)
  {
    TextRoundTrip(t);
    FlagsRoundTrip(t);
    NumbersRoundTrip(t);
    assert TabJson(t).JObject?;
    hide TabJson, Field, KindOf, StringField, MaybeString, SelectionOf, OffsetField, PageSizeOf;
  }

  lemma {:induction false} TabsRoundTrip(tabs: seq<Tab>, raw: seq<Json>, validSnapshot: Json -> bool)
    requires |raw| == |tabs| && forall i :: 0 <= i < |tabs| ==>
             NormalTab(tabs[i], validSnapshot) && raw[i] == TabJson(tabs[i])
    ensures SanitizeTabs(raw, validSnapshot) == tabs
  {
    hide NormalTab, TabJson, SanitizeTab;
    if tabs != [] {
      TabRoundTrip(tabs[0], validSnapshot);
      TabsRoundTrip(tabs[1..], raw[1..], validSnapshot);
      assert tabs == [tabs[0]] + tabs[1..];
    }
  }

  lemma PaneRoundTrip(p: Pane, validSnapshot: Json -> bool)
    requires NormalPane(p, validSnapshot)
    ensures PaneOf(PaneJson(p), validSnapshot) == Some(p)
  {
    hide NormalTab, TabJson, SanitizeTabs;
    assert Field(PaneJson(p), "tabs") == Some(JArray(TabsJson(p.tabs))) &&
           Field(PaneJson(p), "activeIndex") == Some(JInt(p.activeIndex));
    TabsRoundTrip(p.tabs, TabsJson(p.tabs), validSnapshot);
    TruncOfInt(p.activeIndex);
    hide Trunc, PaneJson, Field, TabsJson;
  }

  lemma {:induction false} PanesRoundTrip(panes: seq<Pane>, raw: seq<Json>, from: nat, validSnapshot: Json -> bool)
    requires |raw| == |panes| && from <= |raw| && forall i :: 0 <= i < |panes| ==>
             NormalPane(panes[i], validSnapshot) && raw[i] == PaneJson(panes[i])
    ensures var kept := KeptPanes(raw, from, validSnapshot);
            |kept| == |panes| - from && forall i :: 0 <= i < |kept| ==> kept[i] == KeptPane(panes[from + i], from + i)
    decreases |raw| - from
  {
    hide NormalPane, PaneJson, PaneOf, KeptPanes;
    KeptPanesStep(raw, from, validSnapshot);
    if from < |raw| {
      PaneRoundTrip(panes[from], validSnapshot);
      PanesRoundTrip(panes, raw, from + 1, validSnapshot);
    }
  }

  lemma KeptPanesStep(raw: seq<Json>, from: nat, validSnapshot: Json -> bool)
    requires from <= |raw|
    ensures from == |raw| ==> KeptPanes(raw, from, validSnapshot) == []
    ensures from < |raw| && PaneOf(raw[from], validSnapshot).Some? ==>
              KeptPanes(raw, from, validSnapshot) ==
              [KeptPane(PaneOf(raw[from], validSnapshot).value, from)] + KeptPanes(raw, from + 1, validSnapshot)
  {
    hide PaneOf;
  }

  /** A normalized workspace survives being stored and read back, so normalizing twice changes nothing more. */
  lemma StoreRoundTrip(w: Workspace, validSnapshot: Json -> bool)
    requires Normal(w, validSnapshot)
    ensures Normalize(WorkspaceJson(w), validSnapshot) == w
  {
    hide NormalPane, PaneJson, KeptPanes;
    var raw := PanesJson(w.panes);
    assert Field(WorkspaceJson(w), "panes") == Some(JArray(raw)) &&
           Field(WorkspaceJson(w), "activePane") == Some(JInt(w.activePane));
    hide WorkspaceJson, Field, PanesJson;
    PanesRoundTrip(w.panes, raw, 0, validSnapshot);
    var kept := KeptPanes(raw, 0, validSnapshot);
    assert PanesOf(kept) == w.panes;
    TruncOfInt(w.activePane);
    hide Trunc;
    if w.panes != [] {
      FoundInRange(kept, w.activePane);
      assert kept[w.activePane].origIndex == w.activePane;
    }
  }

  lemma NormalizeIsIdempotent(parsed: Json, validSnapshot: Json -> bool)
    ensures var w := Normalize(parsed, validSnapshot); Normalize(WorkspaceJson(w), validSnapshot) == w
  {
    NormalizeIsNormal(parsed, validSnapshot);
    StoreRoundTrip(Normalize(parsed, validSnapshot), validSnapshot);
  }

  /** The pane that was active stays active if it still has tabs; otherwise the position is cut to the panes left. */
  lemma ActivePaneFollows(raw: seq<Json>, active: nat, validSnapshot: Json -> bool)
    requires KeptPanes(raw, 0, validSnapshot) != []
    ensures var kept := KeptPanes(raw, 0, validSnapshot);
            var a := ActivePaneOf(Some(JInt(active)), kept);
            && 0 <= a < |kept|
            && (active < |raw| && PaneOf(raw[active], validSnapshot).Some? ==>
                  kept[a] == KeptPane(PaneOf(raw[active], validSnapshot).value, active))
            && ((active >= |raw| || PaneOf(raw[active], validSnapshot).None?) ==> a == Min(active, |kept| - 1))
  {
    hide PaneOf, KeptPanes, FindOrig;
    var kept := KeptPanes(raw, 0, validSnapshot);
    assert ActivePaneOf(Some(JInt(active)), kept) ==
           (var found := FindOrig(kept, active); if found.Some? then found.value else Min(active, |kept| - 1)) by {
      TruncOfInt(active);
    }
    KeptArePanes(raw, 0, validSnapshot);
    FoundInRange(kept, active);
    KeptPaneAt(raw, kept, active, validSnapshot);
  }

  /** Any other stored position stands for a whole one: fractions are cut, and what is below counts as the first. */
  lemma ActivePaneOfAny(value: Number, n: nat, kept: seq<KeptPane>)
    requires kept != []
    requires match value
             case PlusInfinity => n >= |kept| && forall k :: k in kept ==> k.origIndex < n
             case MinusInfinity => n == 0
             case Finite(r) => if r < 1.0 then n == 0 else n as real <= r < (n + 1) as real
    ensures ActivePaneOf(Some(JNumber(value)), kept) == ActivePaneOf(Some(JInt(n)), kept)
    ensures ActivePaneOf(None, kept) == 0
  {
    TruncOfInt(n);
    NotFound(kept, n);
    hide FindOrig;
  }

  lemma {:induction false} NotFound(kept: seq<KeptPane>, n: nat)
    ensures (forall k :: k in kept ==> k.origIndex < n) ==> FindOrig(kept, n).None?
  {
    if kept != [] {
      NotFound(kept[1..], n);
      assert forall k :: k in kept[1..] ==> k in kept;
    }
  }

  lemma KeptPaneAt(raw: seq<Json>, kept: seq<KeptPane>, active: nat, validSnapshot: Json -> bool)
    requires forall k :: k in kept <==>
               0 <= k.origIndex < |raw| && PaneOf(raw[k.origIndex], validSnapshot) == Some(k.pane)
    ensures active < |raw| && PaneOf(raw[active], validSnapshot).Some? ==>
              KeptPane(PaneOf(raw[active], validSnapshot).value, active) in kept
    ensures forall i :: 0 <= i < |kept| && kept[i].origIndex == active ==>
              active < |raw| && PaneOf(raw[active], validSnapshot) == Some(kept[i].pane)
  {
    hide PaneOf;
    forall i | 0 <= i < |kept| && kept[i].origIndex == active
      ensures active < |raw| && PaneOf(raw[active], validSnapshot) == Some(kept[i].pane)
    {
      assert kept[i] in kept;
    }
  }

  lemma {:induction false} KeptArePanes(raw: seq<Json>, from: nat, validSnapshot: Json -> bool)
    requires from <= |raw|
    ensures forall k :: k in KeptPanes(raw, from, validSnapshot) <==>
              from <= k.origIndex < |raw| && PaneOf(raw[k.origIndex], validSnapshot) == Some(k.pane)
    decreases |raw| - from
  {
    hide PaneOf;
    if from < |raw| {
      KeptArePanes(raw, from + 1, validSnapshot);
    }
  }

  // --- tabs kept aside ---

  const MAX_PERSISTED_PANES := 2

  function TotalTabs(w: Workspace): nat { |FlatTabs(w.panes)| }

  function FlatTabs(panes: seq<Pane>): seq<Tab> { if panes == [] then [] else panes[0].tabs + FlatTabs(panes[1..]) }

  /** JavaScript `slice(from)`: a negative start counts from the end. */
  function SliceFrom<T>(s: seq<T>, from: int): seq<T> {
    if from < 0 then s[Max(0, |s| + from)..] else s[Min(from, |s|)..]
  }

  function ResolveWorkspaceToSave(current: Workspace, kept: Option<Workspace>): Workspace {
    if kept.None? || TotalTabs(kept.value) == 0 then current
    else if TotalTabs(current) == 0 then kept.value
    else if |current.panes| + |kept.value.panes| <= MAX_PERSISTED_PANES then
      Workspace(current.panes + kept.value.panes, current.activePane)
    else
      var last := |current.panes| - 1;
      if last < 0 then current
      else
        var pane := current.panes[last];
        Workspace(current.panes[..last] + [pane.(tabs := pane.tabs + FlatTabs(kept.value.panes))], current.activePane)
  }

  function CutActive(activePane: int, panes: seq<Pane>): int { Min(activePane, Max(0, |panes| - 1)) }

  function SplitKeptFromSaved(saved: Workspace, kept: Workspace): Workspace {
    var n := |kept.panes|;
    if n == 0 then saved
    else
      var tail := SliceFrom(saved.panes, |saved.panes| - n);
      if |tail| == n && tail == kept.panes then
        var panes := saved.panes[..|saved.panes| - n];
        Workspace(panes, CutActive(saved.activePane, panes))
      else
        WithoutTail(saved, FlatTabs(kept.panes))
  }

  /** The workspace without the tabs `flat` at the end of its last pane. */
  function WithoutTail(saved: Workspace, flat: seq<Tab>): Workspace {
    if saved.panes == [] || flat == [] then saved
    else
      var last := saved.panes[|saved.panes| - 1];
      if |last.tabs| < |flat| || last.tabs[|last.tabs| - |flat|..] != flat then saved
      else
        var rest := last.tabs[..|last.tabs| - |flat|];
        var before := saved.panes[..|saved.panes| - 1];
        var panes := if rest != [] then before + [Pane(rest, Min(last.activeIndex, |rest| - 1))] else before;
        Workspace(panes, CutActive(saved.activePane, panes))
  }

  lemma {:induction false} FlatIsLonger(panes: seq<Pane>, i: nat)
    requires i < |panes|
    ensures |FlatTabs(panes)| >= |panes[i].tabs|
  {
    if i > 0 {
      FlatIsLonger(panes[1..], i - 1);
    }
  }

  lemma NormalTotals(w: Workspace, validSnapshot: Json -> bool)
    requires Normal(w, validSnapshot)
    ensures TotalTabs(w) == 0 <==> w.panes == []
  {
    if w.panes != [] {
      assert NormalPane(w.panes[0], validSnapshot);
      FlatIsLonger(w.panes, 0);
    }
  }

  lemma {:induction false} FlatJoins(a: seq<Pane>, b: seq<Pane>)
    ensures FlatTabs(a + b) == FlatTabs(a) + FlatTabs(b)
  {
    if a == [] {
      assert a + b == b;
    } else {
      assert (a + b)[1..] == a[1..] + b;
      FlatJoins(a[1..], b);
    }
  }

  lemma FlatOfLast(before: seq<Pane>, last: Pane, more: seq<Tab>)
    ensures FlatTabs(before + [last.(tabs := last.tabs + more)]) == FlatTabs(before + [last]) + more
  {
    hide FlatTabs;
    FlatJoins(before, [last]);
    FlatJoins(before, [last.(tabs := last.tabs + more)]);
    OnePane(last);
    OnePane(last.(tabs := last.tabs + more));
    assert FlatTabs(before) + (last.tabs + more) == FlatTabs(before) + last.tabs + more;
  }

  lemma OnePane(p: Pane)
    ensures FlatTabs([p]) == p.tabs
  {
    assert [p][1..] == [];
  }

  /**
   * Saving with tabs kept aside loses none: the tabs saved are the current ones followed by the kept ones, the panes of
   * the session stay where they are, no more than two panes arise from fewer, and the active pane is the session's own
   * unless it has no tabs.
   */
  lemma MergeConserves(current: Workspace, kept: Workspace)
    ensures var saved := ResolveWorkspaceToSave(current, Some(kept));
            && FlatTabs(saved.panes) == FlatTabs(current.panes) + FlatTabs(kept.panes)
            && saved.activePane ==
               (if FlatTabs(current.panes) == [] && FlatTabs(kept.panes) != [] then kept.activePane
                else current.activePane)
            && (FlatTabs(current.panes) != [] ==>
                  && |saved.panes| >= |current.panes|
                  && (forall i :: 0 <= i < |current.panes| ==> current.panes[i].tabs <= saved.panes[i].tabs)
                  && (forall i :: 0 <= i < |current.panes| - 1 ==> current.panes[i] == saved.panes[i])
                  && |saved.panes| <= Max(|current.panes|, MAX_PERSISTED_PANES))
  {
    hide FlatTabs;
    NoFlat();
    FlatJoins(current.panes, kept.panes);
    if current.panes != [] {
      var n := |current.panes| - 1;
      FlatOfLast(current.panes[..n], current.panes[n], FlatTabs(kept.panes));
      assert current.panes == current.panes[..n] + [current.panes[n]];
    }
  }

  lemma NoFlat()
    ensures FlatTabs([]) == []
  {
  }

  /** Taking the kept tabs out of the merged workspace gives back the current one, however many panes either has. */
  lemma SplitUndoesMerge(current: Workspace, kept: Workspace, validSnapshot: Json -> bool)
    requires Normal(current, validSnapshot) && Normal(kept, validSnapshot)
    ensures SplitKeptFromSaved(ResolveWorkspaceToSave(current, Some(kept)), kept) == current
  {
    NormalTotals(current, validSnapshot);
    NormalTotals(kept, validSnapshot);
    var saved := ResolveWorkspaceToSave(current, Some(kept));
    if kept.panes != [] && current.panes != [] {
      var n, m := |kept.panes|, |current.panes|;
      assert NormalPane(current.panes[m - 1], validSnapshot) && NormalPane(kept.panes[n - 1], validSnapshot);
      if m + n <= MAX_PERSISTED_PANES {
        assert saved.panes[m..] == kept.panes && saved.panes[..m] == current.panes;
      } else {
        OverflowSplits(current, kept, saved);
      }
    }
  }

  /**
   * The kept tabs joined the last pane: its tail is not mistaken for the kept panes, and cutting it restores the pane.
   */
  lemma OverflowSplits(current: Workspace, kept: Workspace, saved: Workspace)
    requires current.panes != [] && kept.panes != []
    requires var last := current.panes[|current.panes| - 1];
             && last.tabs != [] && 0 <= last.activeIndex < |last.tabs| && kept.panes[|kept.panes| - 1].tabs != []
             && saved.panes == current.panes[..|current.panes| - 1] + [last.(tabs := last.tabs + FlatTabs(kept.panes))]
             && saved.activePane == current.activePane
    requires 0 <= current.activePane < |current.panes|
    ensures SplitKeptFromSaved(saved, kept) == current
  {
    hide FlatTabs, SliceFrom, WithoutTail;
    var n, m := |kept.panes|, |current.panes|;
    var last, flat := current.panes[m - 1], FlatTabs(kept.panes);
    FlatIsLonger(kept.panes, n - 1);
    assert saved.panes[m - 1] == last.(tabs := last.tabs + flat);
    TailHasLast(saved.panes, n);
    TailIsCut(current, saved, flat);
  }

  lemma TailHasLast<T>(s: seq<T>, n: nat)
    requires s != [] && n > 0
    ensures var tail := SliceFrom(s, |s| - n); |tail| == n ==> tail[n - 1] == s[|s| - 1]
  {
  }

  /** Cutting the tabs that joined the last pane restores the pane. */
  lemma TailIsCut(current: Workspace, saved: Workspace, flat: seq<Tab>)
    requires current.panes != [] && flat != [] && 0 <= current.activePane < |current.panes|
    requires var last := current.panes[|current.panes| - 1];
             && last.tabs != [] && 0 <= last.activeIndex < |last.tabs|
             && saved.panes == current.panes[..|current.panes| - 1] + [last.(tabs := last.tabs + flat)]
             && saved.activePane == current.activePane
    ensures WithoutTail(saved, flat) == current
  {
    var m := |current.panes|;
    var last := current.panes[m - 1];
    JoinedParts(last.tabs, flat);
    PanesParts(current.panes, saved.panes[m - 1]);
  }

  lemma JoinedParts<T>(a: seq<T>, b: seq<T>)
    ensures var s := a + b; |s| - |b| == |a| && s[..|a|] == a && s[|a|..] == b
  {
  }

  lemma PanesParts<T>(s: seq<T>, x: T)
    requires s != []
    ensures var n := |s| - 1;
            var t := s[..n] + [x];
            |t| == |s| && t[n] == x && t[..n] == s[..n] && s[..n] + [s[n]] == s
  {
  }

  predicate EndsIn<T(==)>(s: seq<T>, tail: seq<T>) { |tail| <= |s| && s[|s| - |tail|..] == tail }

  /** The kept panes are the last ones saved, or their tabs the last ones of the last pane. */
  predicate KeepsLast(saved: Workspace, kept: Workspace) {
    && kept.panes != []
    && (|| EndsIn(saved.panes, kept.panes)
        || (saved.panes != [] && EndsIn(saved.panes[|saved.panes| - 1].tabs, FlatTabs(kept.panes))))
  }

  /** The last pane is cut by the kept tabs, and goes if nothing is left of it. */
  lemma TailIsTaken(saved: Workspace, flat: seq<Tab>, validSnapshot: Json -> bool)
    requires Normal(saved, validSnapshot) && saved.panes != [] && flat != []
    requires EndsIn(saved.panes[|saved.panes| - 1].tabs, flat)
    ensures Normal(WithoutTail(saved, flat), validSnapshot)
    ensures FlatTabs(saved.panes) == FlatTabs(WithoutTail(saved, flat).panes) + flat
  {
    hide FlatTabs, NormalPane;
    var n := |saved.panes| - 1;
    var before, last := saved.panes[..n], saved.panes[n];
    var rest := last.tabs[..|last.tabs| - |flat|];
    assert last.tabs == rest + flat;
    var cut := Pane(rest, Min(last.activeIndex, |rest| - 1));
    FlatOfCut(before, last, cut, flat);
    assert saved.panes == before + [last] && NormalPane(last, validSnapshot);
    if rest != [] {
      CutIsNormal(last, cut, validSnapshot);
    }
  }

  lemma CutIsNormal(last: Pane, cut: Pane, validSnapshot: Json -> bool)
    requires NormalPane(last, validSnapshot) && cut.tabs != [] && cut.tabs <= last.tabs
    requires cut.activeIndex == Min(last.activeIndex, |cut.tabs| - 1)
    ensures NormalPane(cut, validSnapshot)
  {
    hide NormalTab;
    assert forall i :: 0 <= i < |cut.tabs| ==> cut.tabs[i] == last.tabs[i];
  }

  lemma FlatOfCut(before: seq<Pane>, last: Pane, cut: Pane, flat: seq<Tab>)
    requires last.tabs == cut.tabs + flat
    ensures FlatTabs(before + [last]) == FlatTabs(before + [cut]) + flat
    ensures cut.tabs == [] ==> FlatTabs(before + [last]) == FlatTabs(before) + flat
  {
    hide FlatTabs;
    FlatJoins(before, [last]);
    FlatJoins(before, [cut]);
    OnePane(last);
    OnePane(cut);
    assert FlatTabs(before) + (cut.tabs + flat) == FlatTabs(before) + cut.tabs + flat;
  }

  /**
   * From any saved workspace just the kept tabs are taken, if they are the last ones in it; otherwise it stays as it
   * is.
   */
  lemma SplitTakesOnlyKept(saved: Workspace, kept: Workspace, validSnapshot: Json -> bool)
    requires Normal(saved, validSnapshot) && Normal(kept, validSnapshot)
    ensures var left := SplitKeptFromSaved(saved, kept);
            && Normal(left, validSnapshot)
            && if KeepsLast(saved, kept) then FlatTabs(saved.panes) == FlatTabs(left.panes) + FlatTabs(kept.panes)
               else left == saved
  {
    hide FlatTabs, NormalPane, WithoutTail;
    var n, m := |kept.panes|, |saved.panes|;
    if kept.panes != [] {
      NormalTotals(kept, validSnapshot);
      if EndsIn(saved.panes, kept.panes) {
        assert saved.panes == saved.panes[..m - n] + kept.panes;
        FlatJoins(saved.panes[..m - n], kept.panes);
      } else if KeepsLast(saved, kept) {
        TailIsTaken(saved, FlatTabs(kept.panes), validSnapshot);
      } else {
        NothingIsTaken(saved, FlatTabs(kept.panes));
      }
    }
  }

  lemma NothingIsTaken(saved: Workspace, flat: seq<Tab>)
    requires saved.panes != [] ==> !EndsIn(saved.panes[|saved.panes| - 1].tabs, flat)
    ensures WithoutTail(saved, flat) == saved
  {
  }

  // --- saving and loading ---

  /** What is written for a workspace; nothing at all when it has no tabs. */
  function Saved(w: Workspace): (stored: Option<Json>)
    ensures stored.None? <==> FlatTabs(w.panes) == []
  {
    if TotalTabs(w) == 0 then None else Some(WorkspaceJson(w))
  }

  function Loaded(stored: Option<Json>, validSnapshot: Json -> bool): Workspace {
    if stored.None? then EMPTY_WORKSPACE else Normalize(stored.value, validSnapshot)
  }

  /**
   * A whole session: the current tabs are saved with the kept ones behind them, read back after a restart, and
   * split again; the tabs of the session come back exactly, and saving once more adds nothing.
   */
  lemma SessionRoundTrip(current: Workspace, kept: Workspace, validSnapshot: Json -> bool)
    requires Normal(current, validSnapshot) && Normal(kept, validSnapshot)
    ensures var saved := ResolveWorkspaceToSave(current, Some(kept));
            var loaded := Loaded(Saved(saved), validSnapshot);
            loaded == saved && SplitKeptFromSaved(loaded, kept) == current &&
            ResolveWorkspaceToSave(SplitKeptFromSaved(loaded, kept), Some(kept)) == saved
  {
    hide NormalTab, SplitKeptFromSaved, WorkspaceJson, Normalize, TotalTabs;
    var saved := ResolveWorkspaceToSave(current, Some(kept));
    MergeIsNormal(current, kept, validSnapshot);
    NormalTotals(saved, validSnapshot);
    StoreRoundTrip(saved, validSnapshot);
    SplitUndoesMerge(current, kept, validSnapshot);
  }

  lemma {:induction false} FlatIsNormal(panes: seq<Pane>, validSnapshot: Json -> bool)
    requires forall i :: 0 <= i < |panes| ==> NormalPane(panes[i], validSnapshot)
    ensures forall t :: t in FlatTabs(panes) ==> NormalTab(t, validSnapshot)
  {
    hide NormalTab;
    if panes != [] {
      FlatIsNormal(panes[1..], validSnapshot);
      assert NormalPane(panes[0], validSnapshot);
    }
  }

  lemma MergeIsNormal(current: Workspace, kept: Workspace, validSnapshot: Json -> bool)
    requires Normal(current, validSnapshot) && Normal(kept, validSnapshot)
    ensures Normal(ResolveWorkspaceToSave(current, Some(kept)), validSnapshot)
  {
    hide NormalTab, TotalTabs;
    NormalTotals(current, validSnapshot);
    NormalTotals(kept, validSnapshot);
    FlatIsNormal(kept.panes, validSnapshot);
    if current.panes != [] {
      assert NormalPane(current.panes[|current.panes| - 1], validSnapshot);
    }
  }
}
