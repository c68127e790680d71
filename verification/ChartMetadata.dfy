/** `validateChartData`: fills in the metadata a chart needs. Charts are JSON values;
    `parse` stands for `parseFloat` and `Date.parse` on values that are not plain numbers. */
module ChartMetadata {
  import opened Options

  datatype Json = Null | Bool(b: bool) | Num(n: real) | Str(s: string) | Arr(items: seq<string>) | Obj

  datatype Field = Field(key: string, value: Json)

  /** A row's fields in key order. */
  type Row = seq<Field>

  type Meta = map<string, Json>

  datatype Chart = Chart(meta: Option<Meta>, data: Option<seq<Row>>)

  datatype Parse = Parse(number: Json -> bool, date: string -> bool)

  datatype Kind = Text | Numeric | DateText

  // ---- JavaScript values ----

  predicate Truthy(v: Json) {
    match v
    case Null => false
    case Bool(b) => b
    case Num(n) => n != 0.0
    case Str(s) => s != ""
    case Arr(_) => true
    case Obj => true
  }

  /** A missing field reads like null. */
  function Get(meta: Meta, k: string): Json { if k in meta then meta[k] else Null }

  predicate Has(meta: Meta, k: string) { Truthy(Get(meta, k)) }

  function RowGet(row: Row, k: string): Json {
    if row == [] then Null else if row[0].key == k then row[0].value else RowGet(row[1..], k)
  }

  predicate IsKind(parse: Parse, kind: Kind, v: Json) {
    match kind
    case Text => v.Str?
    case Numeric => v.Num? || parse.number(v)
    case DateText => v.Str? && parse.date(v.s)
  }

  /** `Object.keys(row).find(...)`. */
  function FirstKey(parse: Parse, kind: Kind, row: Row): Option<string> {
    if row == [] then None
    else if IsKind(parse, kind, row[0].value) then Some(row[0].key)
    else FirstKey(parse, kind, row[1..])
  }

  function AllKeys(parse: Parse, kind: Kind, row: Row): seq<string> {
    if row == [] then []
    else (if IsKind(parse, kind, row[0].value) then [row[0].key] else []) + AllKeys(parse, kind, row[1..])
  }

  /** `found || fallback`. */
  function Or(found: Option<string>, fallback: string): (r: string)
    ensures fallback != "" ==> r != ""
  {
    if found.Some? && found.value != "" then found.value else fallback
  }

  predicate HasRows(data: Option<seq<Row>>) { data.Some? && data.value != [] }

  // ---- Specification, stage by stage ----

  function Default(meta: Meta, k: string, v: string): Meta { if Has(meta, k) then meta else meta[k := Str(v)] }

  function Alias(meta: Meta, from: string, to: string): Meta {
    if Has(meta, from) && !Has(meta, to) then meta[to := meta[from]] else meta
  }

  function Aliased(meta: Meta): Meta {
    Alias(Alias(Alias(meta, "x_axis", "xAxis"), "y_axis", "yAxis"), "group_by", "groupBy")
  }

  /** Status counts labelled as a sankey diagram. */
  predicate Mislabelled(meta: Meta, data: Option<seq<Row>>) {
    Get(meta, "type") == Str("sankey") && Get(meta, "nodes") == Str("status") && Get(meta, "value") == Str("count") &&
    HasRows(data) && Truthy(RowGet(data.value[0], "status")) && Truthy(RowGet(data.value[0], "count"))
  }

  function Relabelled(meta: Meta, data: Option<seq<Row>>): Meta {
    if Mislabelled(meta, data) then
      meta["type" := Str("pie")]["dimension" := Str("status")]["metric" := Str("count")] - {"nodes", "source", "target"}
    else meta
  }

  function Guess(parse: Parse, kind: Kind, data: Option<seq<Row>>, fallback: string, noRows: string): (r: string)
    ensures fallback != "" && noRows != "" ==> r != ""
  {
    if HasRows(data) then Or(FirstKey(parse, kind, data.value[0]), fallback) else noRows
  }

  function GuessX(parse: Parse, data: Option<seq<Row>>): (r: string)
    ensures r != ""
  {
    if HasRows(data) then
      Or(FirstKey(parse, DateText, data.value[0]), Or(FirstKey(parse, Text, data.value[0]), "xAxis"))
    else "xAxis"
  }

  function WithMetrics(parse: Parse, meta: Meta, data: Option<seq<Row>>): Meta {
    if !Has(meta, "metrics") && HasRows(data) && |AllKeys(parse, Numeric, data.value[0])| > 1
    then meta["metrics" := Arr(AllKeys(parse, Numeric, data.value[0]))] else meta
  }

  function Filled(parse: Parse, meta: Meta, data: Option<seq<Row>>): Meta {
    var t := Get(meta, "type");
    if t == Str("sankey") then
      Default(Default(Default(meta, "source", "source"), "target", "target"), "value", "value")
    else if t == Str("pie") then
      Default(Default(meta, "dimension", Guess(parse, Text, data, "dimension", "dimension")),
              "metric", Guess(parse, Numeric, data, "metric", "metric"))
    else if t == Str("funnel") then
      WithMetrics(parse,
        Default(Default(meta, "dimension", Guess(parse, Text, data, "stage", "stage")),
                "metric", Guess(parse, Numeric, data, "count", "count")), data)
    else if t == Str("line") || t == Str("area") then
      Default(Default(meta, "xAxis", GuessX(parse, data)), "yAxis", Guess(parse, Numeric, data, "count", "yAxis"))
    else if t == Str("stacked-bar") then
      Default(Default(Default(meta, "xAxis", "xAxis"), "yAxis", "yAxis"), "groupBy", "groupBy")
    else meta
  }

  predicate Readable(c: Chart) { c.meta.Some? && Has(c.meta.value, "type") }

  function Normalised(parse: Parse, meta: Meta, data: Option<seq<Row>>): Meta {
    Filled(parse, Relabelled(Aliased(meta), data), data)
  }

  function Validated(parse: Parse, c: Chart): Chart {
    if Readable(c) then Chart(Some(Normalised(parse, c.meta.value, c.data)), c.data) else c
  }

  // ---- The program, statement by statement ----

  method ValidateChartData(parse: Parse, c: Chart) returns (r: Chart)
    ensures r == Validated(parse, c)
  {
    if c.meta == None || !Has(c.meta.value, "type") { return c; }
    var meta := c.meta.value;
    if Has(meta, "x_axis") && !Has(meta, "xAxis") { meta := meta["xAxis" := meta["x_axis"]]; }
    if Has(meta, "y_axis") && !Has(meta, "yAxis") { meta := meta["yAxis" := meta["y_axis"]]; }
    if Has(meta, "group_by") && !Has(meta, "groupBy") { meta := meta["groupBy" := meta["group_by"]]; }
    assert meta == Aliased(c.meta.value);

    if Mislabelled(meta, c.data) {
      meta := meta["type" := Str("pie")];
      meta := meta["dimension" := Str("status")];
      meta := meta["metric" := Str("count")];
      meta := meta - {"nodes"};
      meta := meta - {"source"};
      meta := meta - {"target"};
    }
    assert meta == Relabelled(Aliased(c.meta.value), c.data);

    meta := Fill(parse, meta, c.data);
    r := Chart(Some(meta), c.data);
  }

  method Fill(parse: Parse, meta0: Meta, data: Option<seq<Row>>) returns (meta: Meta)
    ensures meta == Filled(parse, meta0, data)
  {
    meta := meta0;
    var t := Get(meta, "type");
    if t == Str("sankey") {
      if !Has(meta, "source") { meta := meta["source" := Str("source")]; }
      if !Has(meta, "target") { meta := meta["target" := Str("target")]; }
      if !Has(meta, "value") { meta := meta["value" := Str("value")]; }
    } else if t == Str("pie") {
      if !Has(meta, "dimension") {
        meta := meta["dimension" := Str(Guess(parse, Text, data, "dimension", "dimension"))];
      }
      if !Has(meta, "metric") { meta := meta["metric" := Str(Guess(parse, Numeric, data, "metric", "metric"))]; }
    } else if t == Str("funnel") {
      if !Has(meta, "dimension") { meta := meta["dimension" := Str(Guess(parse, Text, data, "stage", "stage"))]; }
      if !Has(meta, "metric") { meta := meta["metric" := Str(Guess(parse, Numeric, data, "count", "count"))]; }
      if !Has(meta, "metrics") && HasRows(data) {
        var numericFields := AllKeys(parse, Numeric, data.value[0]);
        if |numericFields| > 1 { meta := meta["metrics" := Arr(numericFields)]; }
      }
    } else if t == Str("line") || t == Str("area") {
      if !Has(meta, "xAxis") { meta := meta["xAxis" := Str(GuessX(parse, data))]; }
      if !Has(meta, "yAxis") { meta := meta["yAxis" := Str(Guess(parse, Numeric, data, "count", "yAxis"))]; }
    } else if t == Str("stacked-bar") {
      if !Has(meta, "xAxis") { meta := meta["xAxis" := Str("xAxis")]; }
      if !Has(meta, "yAxis") { meta := meta["yAxis" := Str("yAxis")]; }
      if !Has(meta, "groupBy") { meta := meta["groupBy" := Str("groupBy")]; }
    }
  }

  // ---- What the result has ----

  /** The fields a chart type needs. */
  function Needed(t: Json): set<string> {
    if t == Str("sankey") then {"source", "target", "value"}
    else if t == Str("pie") || t == Str("funnel") then {"dimension", "metric"}
    else if t == Str("line") || t == Str("area") then {"xAxis", "yAxis"}
    else if t == Str("stacked-bar") then {"xAxis", "yAxis", "groupBy"}
    else {}
  }

  ghost predicate Complete(meta: Meta) {
    forall k :: k in Needed(Get(meta, "type")) ==> Has(meta, k)
  }

  /** `f` is `meta` with some unset fields among `ks` set. */
  ghost predicate Extends(meta: Meta, f: Meta, ks: set<string>) {
    forall k :: ExtendsAt(meta, f, ks, k)
  }

  ghost predicate ExtendsAt(meta: Meta, f: Meta, ks: set<string>, k: string) {
    (Has(meta, k) || k !in ks) ==> Get(f, k) == Get(meta, k)
  }

  lemma {:induction false} DefaultExtends(meta: Meta, m: Meta, ks: set<string>, k: string, v: string)
    requires Extends(meta, m, ks) && v != "" && k in ks
    ensures Extends(meta, Default(m, k, v), ks) && Has(Default(m, k, v), k)
    ensures forall j :: Has(m, j) ==> Has(Default(m, k, v), j)
  {
    forall j ensures ExtendsAt(meta, Default(m, k, v), ks, j) { assert ExtendsAt(meta, m, ks, j); }
  }

  lemma {:induction false} TwoDefaults(meta: Meta, ks: set<string>, k: string, v: string, k': string, v': string)
    requires v != "" && v' != "" && k in ks && k' in ks
    ensures var f := Default(Default(meta, k, v), k', v'); Extends(meta, f, ks) && Has(f, k) && Has(f, k')
  {
    forall j ensures ExtendsAt(meta, meta, ks, j) {}
    DefaultExtends(meta, meta, ks, k, v);
    DefaultExtends(meta, Default(meta, k, v), ks, k', v');
  }

  lemma {:induction false} ThreeDefaults(
    meta: Meta, ks: set<string>, k: string, v: string, k': string, v': string, k'': string, v'': string)
    requires v != "" && v' != "" && v'' != "" && k in ks && k' in ks && k'' in ks
    ensures var f := Default(Default(Default(meta, k, v), k', v'), k'', v'');
            Extends(meta, f, ks) && Has(f, k) && Has(f, k') && Has(f, k'')
  {
    TwoDefaults(meta, ks, k, v, k', v');
    DefaultExtends(meta, Default(Default(meta, k, v), k', v'), ks, k'', v'');
  }

  lemma {:induction false} MetricsExtend(parse: Parse, meta: Meta, m: Meta, ks: set<string>, data: Option<seq<Row>>)
    requires Extends(meta, m, ks) && "metrics" in ks
    ensures Extends(meta, WithMetrics(parse, m, data), ks)
    ensures forall j :: Has(m, j) ==> Has(WithMetrics(parse, m, data), j)
  {
    forall j ensures ExtendsAt(meta, WithMetrics(parse, m, data), ks, j) { assert ExtendsAt(meta, m, ks, j); }
  }

  const FILLED := {"source", "target", "value", "dimension", "metric", "metrics", "xAxis", "yAxis", "groupBy"}

  /** Filling sets only unset fields, and leaves none of the needed ones unset. */
  lemma {:induction false} FilledExtends(parse: Parse, meta: Meta, data: Option<seq<Row>>)
    ensures var f := Filled(parse, meta, data);
            Extends(meta, f, FILLED) && Complete(f) && Get(f, "type") == Get(meta, "type")
  {
    var f, t := Filled(parse, meta, data), Get(meta, "type");
    if t == Str("sankey") {
      ThreeDefaults(meta, FILLED, "source", "source", "target", "target", "value", "value");
    } else if t == Str("pie") {
      TwoDefaults(meta, FILLED, "dimension", Guess(parse, Text, data, "dimension", "dimension"),
                  "metric", Guess(parse, Numeric, data, "metric", "metric"));
    } else if t == Str("funnel") {
      var d, m := Guess(parse, Text, data, "stage", "stage"), Guess(parse, Numeric, data, "count", "count");
      TwoDefaults(meta, FILLED, "dimension", d, "metric", m);
      MetricsExtend(parse, meta, Default(Default(meta, "dimension", d), "metric", m), FILLED, data);
    } else if t == Str("line") || t == Str("area") {
      TwoDefaults(meta, FILLED, "xAxis", GuessX(parse, data), "yAxis", Guess(parse, Numeric, data, "count", "yAxis"));
    } else if t == Str("stacked-bar") {
      ThreeDefaults(meta, FILLED, "xAxis", "xAxis", "yAxis", "yAxis", "groupBy", "groupBy");
    } else {
      forall j ensures ExtendsAt(meta, f, FILLED, j) {}
    }
    assert ExtendsAt(meta, f, FILLED, "type");
  }

  /** Every result with a known type has all the fields that type needs, the relabelled ones included. */
  lemma {:induction false} ValidatedIsComplete(parse: Parse, c: Chart)
    requires c.meta.Some? && Truthy(Get(c.meta.value, "type"))
    ensures Validated(parse, c).meta.Some? && Complete(Validated(parse, c).meta.value)
  {
    FilledExtends(parse, Relabelled(Aliased(c.meta.value), c.data), c.data);
  }

  /** Otherwise no field that was set is changed, the type included. */
  lemma {:induction false} SetFieldsKept(parse: Parse, c: Chart, k: string)
    requires c.meta.Some? && !StatusCounts(c) && Has(c.meta.value, k)
    ensures Validated(parse, c).meta.Some?
    ensures Get(Validated(parse, c).meta.value, k) == Get(c.meta.value, k)
  {
    StatusCountsExactly(c);
    var m := Aliased(c.meta.value);
    assert Get(m, k) == Get(c.meta.value, k);
    FilledExtends(parse, m, c.data);
    assert ExtendsAt(m, Filled(parse, m, c.data), FILLED, k);
  }

  // ---- Validating twice ----

  ghost predicate NoAliasLeft(m: Meta) {
    && (Has(m, "x_axis") ==> Has(m, "xAxis"))
    && (Has(m, "y_axis") ==> Has(m, "yAxis"))
    && (Has(m, "group_by") ==> Has(m, "groupBy"))
  }

  lemma {:induction false} AliasedSettles(meta: Meta)
    ensures NoAliasLeft(Aliased(meta))
    ensures NoAliasLeft(meta) ==> Aliased(meta) == meta
  {}

  lemma {:induction false} RelabelledSettles(meta: Meta, data: Option<seq<Row>>)
    requires NoAliasLeft(meta)
    ensures var r := Relabelled(meta, data);
            NoAliasLeft(r) && !Mislabelled(r, data) && (Has(meta, "type") ==> Has(r, "type"))
  {}

  lemma {:induction false} ExtensionSettled(meta: Meta, f: Meta)
    requires Extends(meta, f, FILLED) && NoAliasLeft(meta)
    ensures NoAliasLeft(f)
  {
    assert ExtendsAt(meta, f, FILLED, "x_axis") && ExtendsAt(meta, f, FILLED, "xAxis");
    assert ExtendsAt(meta, f, FILLED, "y_axis") && ExtendsAt(meta, f, FILLED, "yAxis");
    assert ExtendsAt(meta, f, FILLED, "group_by") && ExtendsAt(meta, f, FILLED, "groupBy");
  }

  lemma {:induction false} ExtensionKeepsLabel(meta: Meta, f: Meta, data: Option<seq<Row>>)
    requires Extends(meta, f, FILLED) && !Mislabelled(meta, data) && Get(f, "type") == Get(meta, "type")
    requires Get(meta, "type") == Str("sankey") && !Has(meta, "value") ==> Get(f, "value") == Str("value")
    ensures !Mislabelled(f, data)
  {
    assert ExtendsAt(meta, f, FILLED, "nodes") && ExtendsAt(meta, f, FILLED, "value");
  }

  /** Filling leaves nothing for the alias step and nothing to relabel. */
  lemma {:induction false} FilledSettled(parse: Parse, meta: Meta, data: Option<seq<Row>>)
    requires NoAliasLeft(meta) && !Mislabelled(meta, data)
    ensures var f := Filled(parse, meta, data); NoAliasLeft(f) && !Mislabelled(f, data)
  {
    FilledExtends(parse, meta, data);
    ExtensionSettled(meta, Filled(parse, meta, data));
    if Get(meta, "type") == Str("sankey") && !Has(meta, "value") { SankeyValue(parse, meta, data); }
    ExtensionKeepsLabel(meta, Filled(parse, meta, data), data);
  }

  lemma {:induction false} SankeyValue(parse: Parse, meta: Meta, data: Option<seq<Row>>)
    requires Get(meta, "type") == Str("sankey") && !Has(meta, "value")
    ensures Get(Filled(parse, meta, data), "value") == Str("value")
  {}

  /** A complete chart is filled already. */
  lemma {:induction false} CompleteIsFilled(parse: Parse, m: Meta, data: Option<seq<Row>>)
    requires Complete(m) && (Get(m, "type") == Str("funnel") ==> WithMetrics(parse, m, data) == m)
    ensures Filled(parse, m, data) == m
  {
    var need := Needed(Get(m, "type"));
    assert forall k :: k in need ==> Has(m, k);
  }

  lemma {:induction false} FilledTwice(parse: Parse, meta: Meta, data: Option<seq<Row>>)
    ensures Filled(parse, Filled(parse, meta, data), data) == Filled(parse, meta, data)
  {
    FilledExtends(parse, meta, data);
    CompleteIsFilled(parse, Filled(parse, meta, data), data);
  }

  /** Validating a validated chart changes nothing. */
  lemma {:induction false} ValidatedTwice(parse: Parse, c: Chart)
    ensures Validated(parse, Validated(parse, c)) == Validated(parse, c)
    ensures Validated(parse, c).data == c.data
  {
    if Readable(c) {
      var a := Aliased(c.meta.value);
      var r := Relabelled(a, c.data);
      var f := Filled(parse, r, c.data);
      AliasedSettles(c.meta.value);
      assert Has(a, "type");
      RelabelledSettles(a, c.data);
      FilledExtends(parse, r, c.data);
      FilledSettled(parse, r, c.data);
      AliasedSettles(f);
      FilledTwice(parse, r, c.data);
      assert Normalised(parse, f, c.data) == f;
    }
  }

  // ---- What is filled in, field by field ----

  /** JavaScript's falsy values among these. */
  lemma TruthyExactly(v: Json)
    ensures Truthy(v) <==> v != Null && v != Bool(false) && v != Num(0.0) && v != Str("")
  {}

  /** The tests on a value: a text; a number or what reads as one; a text that reads as a date. */
  function IsText(): Json -> bool { (v: Json) => v.Str? }

  function IsNumber(parse: Parse): Json -> bool { (v: Json) => v.Num? || parse.number(v) }

  function IsDate(parse: Parse): Json -> bool { (v: Json) => v.Str? && parse.date(v.s) }

  /** A chart without metadata or without a type is returned as it is. */
  lemma UnreadableKept(parse: Parse, c: Chart)
    requires c.meta == None || !Truthy(Get(c.meta.value, "type"))
    ensures Validated(parse, c) == c
  {}

  /** Field `i` is the first of the row whose value passes the test. */
  ghost predicate FirstWith(row: Row, test: Json -> bool, i: int) {
    0 <= i < |row| && test(row[i].value) && forall j :: 0 <= j < i ==> !test(row[j].value)
  }

  /** `name` is the key of the first field that passes the test; `fallback` if there is none or its key is empty. */
  ghost predicate Chosen(row: Row, test: Json -> bool, fallback: string, name: string) {
    || (exists i :: FirstWith(row, test, i) && name == if row[i].key == "" then fallback else row[i].key)
    || ((forall i :: 0 <= i < |row| ==> !test(row[i].value)) && name == fallback)
  }

  lemma {:induction false} FirstKeyIs(parse: Parse, kind: Kind, row: Row, test: Json -> bool)
    requires forall v :: IsKind(parse, kind, v) <==> test(v)
    ensures var found := FirstKey(parse, kind, row);
            if found == None then forall i :: 0 <= i < |row| ==> !test(row[i].value)
            else exists i :: FirstWith(row, test, i) && row[i].key == found.value
  {
    if row != [] && !test(row[0].value) {
      FirstKeyIs(parse, kind, row[1..], test);
      assert forall i :: 0 < i < |row| ==> row[i] == row[1..][i - 1];
      if FirstKey(parse, kind, row).Some? {
        var i :| FirstWith(row[1..], test, i) && row[1..][i].key == FirstKey(parse, kind, row).value;
        assert FirstWith(row, test, i + 1);
      }
    } else if row != [] {
      assert FirstWith(row, test, 0);
    }
  }

  lemma {:induction false} OrIsChosen(parse: Parse, kind: Kind, row: Row, test: Json -> bool, fallback: string)
    requires forall v :: IsKind(parse, kind, v) <==> test(v)
    ensures Chosen(row, test, fallback, Or(FirstKey(parse, kind, row), fallback))
  {
    FirstKeyIs(parse, kind, row, test);
  }

  /** The value is a name chosen from the first row, or `noRows` when there is none. */
  ghost predicate FilledFrom(data: Option<seq<Row>>, test: Json -> bool, fallback: string, noRows: string, v: Json) {
    v.Str? && if data.Some? && data.value != [] then Chosen(data.value[0], test, fallback, v.s) else v.s == noRows
  }

  lemma {:induction false} GuessFills(
    parse: Parse, kind: Kind, data: Option<seq<Row>>, test: Json -> bool, fallback: string, noRows: string)
    requires forall v :: IsKind(parse, kind, v) <==> test(v)
    ensures FilledFrom(data, test, fallback, noRows, Str(Guess(parse, kind, data, fallback, noRows)))
  {
    if HasRows(data) { OrIsChosen(parse, kind, data.value[0], test, fallback); }
  }

  lemma AliasLeaves(meta: Meta, k: string)
    requires k != "xAxis" && k != "yAxis" && k != "groupBy"
    ensures Get(Aliased(meta), k) == Get(meta, k)
  {}

  /** A pie chart without a dimension gets the first text field, without a metric the first numeric one. */
  lemma {:induction false} PieFilled(parse: Parse, c: Chart)
    requires c.meta.Some? && Get(c.meta.value, "type") == Str("pie")
    ensures var m := Validated(parse, c).meta.value;
            && (!Has(c.meta.value, "dimension") ==>
                  FilledFrom(c.data, IsText(), "dimension", "dimension", Get(m, "dimension")))
            && (!Has(c.meta.value, "metric") ==>
                  FilledFrom(c.data, IsNumber(parse), "metric", "metric", Get(m, "metric")))
  {
    AliasLeaves(c.meta.value, "type");
    AliasLeaves(c.meta.value, "dimension");
    AliasLeaves(c.meta.value, "metric");
    GuessFills(parse, Text, c.data, IsText(), "dimension", "dimension");
    GuessFills(parse, Numeric, c.data, IsNumber(parse), "metric", "metric");
  }

  /** The keys of the fields that pass the test, in order. */
  function KeysWhere(row: Row, test: Json -> bool): seq<string> {
    if row == [] then []
    else KeysWhere(row[..|row| - 1], test) + if test(row[|row| - 1].value) then [row[|row| - 1].key] else []
  }

  lemma {:induction false} KeysWhereCons(f: Field, row: Row, test: Json -> bool)
    ensures KeysWhere([f] + row, test) == (if test(f.value) then [f.key] else []) + KeysWhere(row, test)
  {
    if row == [] {
      assert [f] + row == [f] && [f][..0] == [];
    } else {
      KeysWhereCons(f, row[..|row| - 1], test);
      assert ([f] + row)[..|row|] == [f] + row[..|row| - 1];
    }
  }

  lemma {:induction false} AllKeysAre(parse: Parse, kind: Kind, row: Row, test: Json -> bool)
    requires forall v :: IsKind(parse, kind, v) <==> test(v)
    ensures AllKeys(parse, kind, row) == KeysWhere(row, test)
  {
    if row != [] {
      AllKeysAre(parse, kind, row[1..], test);
      KeysWhereCons(row[0], row[1..], test);
      assert row == [row[0]] + row[1..];
    }
  }

  /** A funnel chart likewise, with other names to fall back on, and with the list of its numeric fields when there
      are several and none is listed. */
  lemma {:induction false} FunnelFilled(parse: Parse, c: Chart)
    requires c.meta.Some? && Get(c.meta.value, "type") == Str("funnel")
    ensures var m := Validated(parse, c).meta.value;
            && (!Has(c.meta.value, "dimension") ==>
                  FilledFrom(c.data, IsText(), "stage", "stage", Get(m, "dimension")))
            && (!Has(c.meta.value, "metric") ==>
                  FilledFrom(c.data, IsNumber(parse), "count", "count", Get(m, "metric")))
  {
    AliasLeaves(c.meta.value, "type");
    AliasLeaves(c.meta.value, "dimension");
    AliasLeaves(c.meta.value, "metric");
    GuessFills(parse, Text, c.data, IsText(), "stage", "stage");
    GuessFills(parse, Numeric, c.data, IsNumber(parse), "count", "count");
  }

  lemma {:induction false} MetricsFilled(parse: Parse, meta: Meta, data: Option<seq<Row>>)
    requires !Has(meta, "metrics")
    ensures var keys := if data.Some? && data.value != [] then KeysWhere(data.value[0], IsNumber(parse)) else [];
            Get(WithMetrics(parse, meta, data), "metrics") == if |keys| > 1 then Arr(keys) else Get(meta, "metrics")
  {
    if HasRows(data) { AllKeysAre(parse, Numeric, data.value[0], IsNumber(parse)); }
  }

  lemma {:induction false} FunnelMetrics(parse: Parse, c: Chart)
    requires c.meta.Some? && Get(c.meta.value, "type") == Str("funnel") && !Has(c.meta.value, "metrics")
    ensures var keys := if c.data.Some? && c.data.value != [] then KeysWhere(c.data.value[0], IsNumber(parse)) else [];
            Get(Validated(parse, c).meta.value, "metrics") ==
            if |keys| > 1 then Arr(keys) else Get(c.meta.value, "metrics")
  {
    var a := Aliased(c.meta.value);
    AliasLeaves(c.meta.value, "type");
    AliasLeaves(c.meta.value, "metrics");
    var d := Default(a, "dimension", Guess(parse, Text, c.data, "stage", "stage"));
    var m := Default(d, "metric", Guess(parse, Numeric, c.data, "count", "count"));
    assert Get(m, "metrics") == Get(a, "metrics");
    MetricsFilled(parse, m, c.data);
  }

  /** The camelCase field that counts as set: its own value, or else that of its snake_case form. */
  function Either(meta: Meta, camel: string, snake: string): Json {
    if Truthy(Get(meta, camel)) then Get(meta, camel) else Get(meta, snake)
  }

  lemma AliasTakes(meta: Meta)
    ensures var a := Aliased(meta);
            && (Truthy(Either(meta, "xAxis", "x_axis")) ==> Get(a, "xAxis") == Either(meta, "xAxis", "x_axis"))
            && (Truthy(Either(meta, "yAxis", "y_axis")) ==> Get(a, "yAxis") == Either(meta, "yAxis", "y_axis"))
            && (Truthy(Either(meta, "groupBy", "group_by")) ==>
                  Get(a, "groupBy") == Either(meta, "groupBy", "group_by"))
            && (!Truthy(Either(meta, "xAxis", "x_axis")) ==> !Has(a, "xAxis"))
            && (!Truthy(Either(meta, "yAxis", "y_axis")) ==> !Has(a, "yAxis"))
            && (!Truthy(Either(meta, "groupBy", "group_by")) ==> !Has(a, "groupBy"))
  {}

  /** The y axis of a line or area chart, in either spelling; unset, the first numeric field. */
  lemma {:induction false} LineY(parse: Parse, c: Chart)
    requires c.meta.Some? && Get(c.meta.value, "type") in {Str("line"), Str("area")}
    ensures var m, y := Validated(parse, c).meta.value, Either(c.meta.value, "yAxis", "y_axis");
            Get(m, "yAxis") == if Truthy(y) then y else Str(Guess(parse, Numeric, c.data, "count", "yAxis"))
  {
    AliasLeaves(c.meta.value, "type");
    AliasTakes(c.meta.value);
  }

  lemma {:induction false} LineX(parse: Parse, c: Chart)
    requires c.meta.Some? && Get(c.meta.value, "type") in {Str("line"), Str("area")}
    ensures var m, x := Validated(parse, c).meta.value, Either(c.meta.value, "xAxis", "x_axis");
            Get(m, "xAxis") == if Truthy(x) then x else Str(GuessX(parse, c.data))
  {
    AliasLeaves(c.meta.value, "type");
    AliasTakes(c.meta.value);
  }

  lemma {:induction false} GuessXFills(parse: Parse, data: Option<seq<Row>>)
    ensures exists text ::
              && FilledFrom(data, IsText(), "xAxis", "xAxis", Str(text))
              && FilledFrom(data, IsDate(parse), text, "xAxis", Str(GuessX(parse, data)))
  {
    var text := Guess(parse, Text, data, "xAxis", "xAxis");
    GuessFills(parse, Text, data, IsText(), "xAxis", "xAxis");
    GuessFills(parse, DateText, data, IsDate(parse), text, "xAxis");
    assert GuessX(parse, data) == Guess(parse, DateText, data, text, "xAxis");
  }

  /** A line or area chart takes its axes in either spelling; an unset x axis is the first date text, else the first
      text; an unset y axis the first numeric field. */
  lemma {:induction false} LineFilled(parse: Parse, c: Chart)
    requires c.meta.Some? && Get(c.meta.value, "type") in {Str("line"), Str("area")}
    ensures var m, x := Validated(parse, c).meta.value, Either(c.meta.value, "xAxis", "x_axis");
            if Truthy(x) then Get(m, "xAxis") == x
            else exists text ::
              && FilledFrom(c.data, IsText(), "xAxis", "xAxis", Str(text))
              && FilledFrom(c.data, IsDate(parse), text, "xAxis", Get(m, "xAxis"))
    ensures var m, y := Validated(parse, c).meta.value, Either(c.meta.value, "yAxis", "y_axis");
            if Truthy(y) then Get(m, "yAxis") == y
            else FilledFrom(c.data, IsNumber(parse), "count", "yAxis", Get(m, "yAxis"))
  {
    LineX(parse, c);
    LineY(parse, c);
    GuessXFills(parse, c.data);
    GuessFills(parse, Numeric, c.data, IsNumber(parse), "count", "yAxis");
  }

  /** A stacked bar chart takes its three fields in either spelling, and else names them after themselves. */
  lemma {:induction false} StackedBarFilled(parse: Parse, c: Chart)
    requires c.meta.Some? && Get(c.meta.value, "type") == Str("stacked-bar")
    ensures var m, x := Validated(parse, c).meta.value, Either(c.meta.value, "xAxis", "x_axis");
            Get(m, "xAxis") == if Truthy(x) then x else Str("xAxis")
    ensures var m, y := Validated(parse, c).meta.value, Either(c.meta.value, "yAxis", "y_axis");
            Get(m, "yAxis") == if Truthy(y) then y else Str("yAxis")
    ensures var m, g := Validated(parse, c).meta.value, Either(c.meta.value, "groupBy", "group_by");
            Get(m, "groupBy") == if Truthy(g) then g else Str("groupBy")
  {
    AliasLeaves(c.meta.value, "type");
    AliasTakes(c.meta.value);
  }

  /** The value of the first field with the key, or null. */
  lemma {:induction false} RowGetIs(row: Row, k: string)
    ensures || (exists i :: 0 <= i < |row| && row[i].key == k && RowGet(row, k) == row[i].value &&
                            forall j :: 0 <= j < i ==> row[j].key != k)
            || ((forall i :: 0 <= i < |row| ==> row[i].key != k) && RowGet(row, k) == Null)
  {
    if row != [] && row[0].key != k {
      RowGetIs(row[1..], k);
      assert forall i :: 0 < i < |row| ==> row[i] == row[1..][i - 1];
      if i :| 0 <= i < |row[1..]| && row[1..][i].key == k && RowGet(row, k) == row[1..][i].value &&
              forall j :: 0 <= j < i ==> row[1..][j].key != k
      {
        assert row[i + 1].key == k;
      }
    }
  }

  /** A chart labelled sankey that names status as nodes and count as value, and whose first row has both. */
  ghost predicate StatusCounts(c: Chart) {
    && c.meta.Some? && Get(c.meta.value, "type") == Str("sankey")
    && Get(c.meta.value, "nodes") == Str("status") && Get(c.meta.value, "value") == Str("count")
    && c.data.Some? && c.data.value != []
    && Truthy(RowGet(c.data.value[0], "status")) && Truthy(RowGet(c.data.value[0], "count"))
  }

  lemma StatusCountsExactly(c: Chart)
    requires c.meta.Some?
    ensures Mislabelled(Aliased(c.meta.value), c.data) <==> StatusCounts(c)
  {
    AliasLeaves(c.meta.value, "type");
    AliasLeaves(c.meta.value, "nodes");
    AliasLeaves(c.meta.value, "value");
  }

  /** Status counts labelled as a sankey diagram become a pie chart of counts by status. */
  lemma {:induction false} MislabelledBecomesPie(parse: Parse, c: Chart)
    requires StatusCounts(c)
    ensures var m := Validated(parse, c).meta.value;
            Get(m, "type") == Str("pie") && Get(m, "dimension") == Str("status") && Get(m, "metric") == Str("count") &&
            "nodes" !in m && "source" !in m && "target" !in m
  {
    StatusCountsExactly(c);
  }

  /** Any other sankey chart stays one, with its unset fields named after themselves. */
  lemma {:induction false} SankeyFilled(parse: Parse, c: Chart)
    requires c.meta.Some? && Get(c.meta.value, "type") == Str("sankey") && !StatusCounts(c)
    ensures var meta, m := c.meta.value, Validated(parse, c).meta.value;
            && Get(m, "type") == Str("sankey")
            && Get(m, "source") == (if Has(meta, "source") then Get(meta, "source") else Str("source"))
            && Get(m, "target") == (if Has(meta, "target") then Get(meta, "target") else Str("target"))
            && Get(m, "value") == (if Has(meta, "value") then Get(meta, "value") else Str("value"))
  {
    StatusCountsExactly(c);
    AliasLeaves(c.meta.value, "type");
    AliasLeaves(c.meta.value, "source");
    AliasLeaves(c.meta.value, "target");
    AliasLeaves(c.meta.value, "value");
  }
}
