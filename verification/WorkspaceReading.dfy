/** Which stored tabs are read back, and with which fields, told from the JSON alone. */
module WorkspaceReading {
  import opened Common
  import opened Workspace

  predicate Has(j: Json, name: string, v: Json) { j.JObject? && name in j.fields && j.fields[name] == v }

  predicate HasText(j: Json, name: string) { j.JObject? && name in j.fields && j.fields[name].JString? }

  /** Left out, null or a text. */
  predicate MayBeText(j: Json, name: string) {
    j.JObject? && (name in j.fields ==> j.fields[name].JNull? || j.fields[name].JString?)
  }

  /** A finite number from zero on. */
  predicate HasOffset(j: Json, name: string, r: real) { Has(j, name, JNumber(Finite(r))) && r >= 0.0 }

  predicate Readable(j: Json) {
    && (Has(j, "kind", JString("table")) || Has(j, "kind", JString("query")) || Has(j, "kind", JString("explain")))
    && HasText(j, "title") && HasText(j, "sql") && MayBeText(j, "database") && MayBeText(j, "table")
  }

  /** `n` is the whole part of an offset. */
  ghost predicate HasWhole(j: Json, name: string, n: int) { exists r :: HasOffset(j, name, r) && n == r.Floor }

  ghost predicate HasSelection(j: Json, s: Selection) {
    exists sel :: Has(j, "selection", sel) && HasWhole(sel, "anchor", s.anchor) && HasWhole(sel, "head", s.head)
  }

  /** The fields of a tab read from `j`: each optional one is there exactly if it was stored in good form. */
  ghost predicate ReadsAs(j: Json, t: Tab, validSnapshot: Json -> bool) {
    && Has(j, "kind",
           JString(match t.kind case TableTab => "table" case QueryTab => "query" case ExplainTab => "explain"))
    && Has(j, "title", JString(t.title)) && Has(j, "sql", JString(t.sql))
    && (forall s :: t.database == Some(s) <==> Has(j, "database", JString(s)))
    && (forall s :: t.table == Some(s) <==> Has(j, "table", JString(s)))
    && (t.titleManual <==> Has(j, "titleManual", JBool(true))) && (t.pinned <==> Has(j, "pinned", JBool(true)))
    && (forall s :: t.builderSnapshot == Some(s) <==> Has(j, "builderSnapshot", s) && validSnapshot(s))
    && (forall s :: t.selection == Some(s) <==> HasSelection(j, s))
    && (forall r :: t.gridScrollTop == Some(r) <==> HasOffset(j, "gridScrollTop", r))
    && (forall n :: t.pageSize == Some(n) <==> HasWhole(j, "pageSize", n) && n > 0)
  }

  lemma FieldIsHas(j: Json, name: string)
    ensures forall v :: Field(j, name) == Some(v) <==> Has(j, name, v)
    ensures StringField(j, name).Some? <==> HasText(j, name)
    ensures forall s :: StringField(j, name) == Some(s) <==> Has(j, name, JString(s))
    ensures j.JObject? ==> (MaybeString(j, name) <==> MayBeText(j, name))
  {
  }

  lemma OffsetIsHas(j: Json, name: string)
    ensures forall r :: OffsetField(j, name) == Some(r) <==> HasOffset(j, name, r)
  {
  }

  lemma WholeIsHas(j: Json, name: string)
    ensures forall n :: HasWhole(j, name, n) <==> OffsetField(j, name).Some? && n == Trunc(OffsetField(j, name).value)
  {
    OffsetIsHas(j, name);
    hide HasOffset, OffsetField;
    if OffsetField(j, name).Some? {
      assert HasOffset(j, name, OffsetField(j, name).value);
      OffsetIsNotNegative(j, name);
    }
  }

  lemma OffsetIsNotNegative(j: Json, name: string)
    requires OffsetField(j, name).Some?
    ensures OffsetField(j, name).value >= 0.0
  {
  }

  lemma SelectionIsHas(j: Json)
    ensures forall s :: SelectionOf(j) == Some(s) <==> HasSelection(j, s)
  {
    FieldIsHas(j, "selection");
    forall sel: Json, s: Selection
      ensures SelectionFrom(sel) == Some(s) <==> HasWhole(sel, "anchor", s.anchor) && HasWhole(sel, "head", s.head)
    {
      WholeIsHas(sel, "anchor");
      WholeIsHas(sel, "head");
      hide HasWhole, OffsetField, Trunc;
    }
    hide SelectionFrom, HasWhole, Has, Field, MayBeText, HasText, MaybeString, StringField;
  }

  /** A stored tab is read back exactly if kind, title and text are there in good form, and then as it was stored. */
  lemma TabIsTold(j: Json, validSnapshot: Json -> bool)
    ensures SanitizeTab(j, validSnapshot).Some? <==> Readable(j)
    ensures forall t :: SanitizeTab(j, validSnapshot) == Some(t) ==> ReadsAs(j, t, validSnapshot)
  {
    ReadableIsTold(j);
    if ValidTab(j) {
      KindIsTold(j);
      FieldIsHas(j, "title");
      FieldIsHas(j, "sql");
      FieldIsHas(j, "database");
      FieldIsHas(j, "table");
      FieldIsHas(j, "titleManual");
      FieldIsHas(j, "pinned");
      FieldIsHas(j, "builderSnapshot");
      SelectionIsHas(j);
      OffsetIsHas(j, "gridScrollTop");
      WholeIsHas(j, "pageSize");
      hide Has, Field, StringField, OffsetField, SelectionOf, HasWhole, HasOffset, HasSelection, KindOf, Trunc, HasText,
        MayBeText, MaybeString, ValidTab, Readable;
    }
  }

  lemma KindIsTold(j: Json)
    requires KindOf(j).Some?
    ensures var k := KindOf(j).value;
            Has(j, "kind",
                JString(match k case TableTab => "table" case QueryTab => "query" case ExplainTab => "explain"))
  {
    FieldIsHas(j, "kind");
  }

  lemma ReadableIsTold(j: Json)
    ensures ValidTab(j) <==> Readable(j)
  {
    FieldIsHas(j, "kind");
    FieldIsHas(j, "title");
    FieldIsHas(j, "sql");
    FieldIsHas(j, "database");
    FieldIsHas(j, "table");
    hide Has, Field, StringField, MayBeText, MaybeString;
    var s := StringField(j, "kind");
    assert s.Some? ==> Has(j, "kind", JString(s.value));
  }

  /** `tabs` are the readable ones of `raw`, in order, standing at the places `at`. */
  ghost predicate TabsOf(tabs: seq<Tab>, raw: seq<Json>, at: seq<nat>, validSnapshot: Json -> bool) {
    && |at| == |tabs|
    && (forall i :: 0 <= i < |at| ==>
        at[i] < |raw| && Readable(raw[at[i]]) && ReadsAs(raw[at[i]], tabs[i], validSnapshot))
    && (forall i, j :: 0 <= i < j < |at| ==> at[i] < at[j])
    && forall k :: 0 <= k < |raw| && Readable(raw[k]) ==> k in at
  }

  function OneTab(j: Json, validSnapshot: Json -> bool): seq<Tab> {
    match SanitizeTab(j, validSnapshot) case None => [] case Some(t) => [t]
  }

  lemma SanitizeStep(j: Json, raw: seq<Json>, validSnapshot: Json -> bool)
    ensures SanitizeTabs([j] + raw, validSnapshot) == OneTab(j, validSnapshot) + SanitizeTabs(raw, validSnapshot)
    ensures SanitizeTabs([], validSnapshot) == []
  {
    hide SanitizeTab;
    assert ([j] + raw)[1..] == raw;
  }

  lemma {:induction false} SanitizePush(raw: seq<Json>, j: Json, validSnapshot: Json -> bool)
    ensures SanitizeTabs(raw + [j], validSnapshot) == SanitizeTabs(raw, validSnapshot) + OneTab(j, validSnapshot)
  {
    hide SanitizeTabs, OneTab;
    if raw == [] {
      SanitizeStep(j, [], validSnapshot);
      assert raw + [j] == [j] + [];
    } else {
      SanitizePush(raw[1..], j, validSnapshot);
      SanitizeStep(raw[0], raw[1..] + [j], validSnapshot);
      SanitizeStep(raw[0], raw[1..], validSnapshot);
      assert raw + [j] == [raw[0]] + (raw[1..] + [j]) && raw == [raw[0]] + raw[1..];
    }
  }

  lemma PushTab(tabs: seq<Tab>, raw: seq<Json>, at: seq<nat>, j: Json, t: Option<Tab>, validSnapshot: Json -> bool)
    requires TabsOf(tabs, raw, at, validSnapshot)
    requires if t.None? then !Readable(j) else Readable(j) && ReadsAs(j, t.value, validSnapshot)
    ensures if t.None? then TabsOf(tabs, raw + [j], at, validSnapshot)
            else TabsOf(tabs + [t.value], raw + [j], at + [|raw|], validSnapshot)
  {
    hide Readable, ReadsAs;
  }

  /** The tabs read from a list are its readable ones, in order. */
  lemma {:induction false} TabsAreTold(raw: seq<Json>, validSnapshot: Json -> bool) returns (at: seq<nat>)
    ensures TabsOf(SanitizeTabs(raw, validSnapshot), raw, at, validSnapshot)
  {
    hide Readable, ReadsAs, TabsOf, SanitizeTab, SanitizeTabs;
    if raw == [] {
      at := [];
      NoTabs(validSnapshot);
    } else {
      var n := |raw| - 1;
      at := TabsAreTold(raw[..n], validSnapshot);
      assert raw == raw[..n] + [raw[n]];
      TabIsTold(raw[n], validSnapshot);
      SanitizePush(raw[..n], raw[n], validSnapshot);
      var t := SanitizeTab(raw[n], validSnapshot);
      PushTab(SanitizeTabs(raw[..n], validSnapshot), raw[..n], at, raw[n], t, validSnapshot);
      if t.Some? {
        at := at + [n];
      } else {
        var tabs := SanitizeTabs(raw[..n], validSnapshot);
        assert tabs + [] == tabs;
      }
    }
  }

  lemma NoTabs(validSnapshot: Json -> bool)
    ensures TabsOf(SanitizeTabs([], validSnapshot), [], [], validSnapshot)
  {
  }

  /** The older form, a list of tabs, becomes one pane of the readable ones, the first of them active. */
  lemma ListIsOnePane(raw: seq<Json>, validSnapshot: Json -> bool) returns (tabs: seq<Tab>, at: seq<nat>)
    ensures TabsOf(tabs, raw, at, validSnapshot)
    ensures Normalize(JArray(raw), validSnapshot) ==
            if tabs == [] then Workspace([], 0) else Workspace([Pane(tabs, 0)], 0)
  {
    hide TabsOf, SanitizeTabs;
    tabs := SanitizeTabs(raw, validSnapshot);
    at := TabsAreTold(raw, validSnapshot);
  }
}
