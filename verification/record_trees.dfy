/**
 Record reconstruction from a parsed response tree, as `DoQuery` and
 `DoStructuredQuery` do it. The tree is go-pkg-xmlx's: only the node kind, the
 element name and the children matter here.
 */
module RecordTrees {
  import opened Wrappers

  /** A tree node; `Misc` stands for comments, processing instructions and directives. */
  datatype Node = Text(value: string) | Element(name: string, children: seq<Node>) | Misc

  type Record = map<string, string>

  /** `child.Name.Local`: empty for a node that is not an element. */
  function Label(n: Node): string {
    if n.Element? then n.name else ""
  }

  /** `child.Children`: empty for a node that is not an element. */
  function Kids(n: Node): seq<Node> {
    if n.Element? then n.children else []
  }

  datatype FieldError =
    | TagInValue(tag: string, field: string)   // "Cannot handle tag %s within value for field %s"
    | NonTextInValue(field: string)            // "Cannot handle non-text, non-element within value for field %s"

  /** Appends the value nodes of field `field` to its entry, text as is and `BR` as a carriage return. */
  function AppendValue(m: Record, field: string, gs: seq<Node>): (r: Result<Record, FieldError>)
    ensures r.Err? ==> r.error.field == field
    ensures r.Ok? ==> r.value.Keys == if gs == [] then m.Keys else m.Keys + {field}
    ensures r.Ok? ==> forall k :: k in m && k != field ==> r.value[k] == m[k]
    decreases |gs|
  {
    if gs == [] then Ok(m)
    else match gs[0]
      case Text(v) => AppendValue(m[field := GetOrEmpty(m, field) + v], field, gs[1..])
      case Element(t, _) =>
        if t == "BR" then AppendValue(m[field := GetOrEmpty(m, field) + "\r"], field, gs[1..])
        else Err(TagInValue(t, field))
      case Misc => Err(NonTextInValue(field))
  }

  /** No field in `children` is labelled `k`. */
  predicate NotALabel(children: seq<Node>, k: string) {
    forall i :: 0 <= i < |children| ==> Label(children[i]) != k
  }

  /** The record map of one `record` element: every child is a field, keyed by its label. */
  function FieldsToMap(m: Record, children: seq<Node>): (r: Result<Record, FieldError>)
    ensures r.Ok? ==> m.Keys <= r.value.Keys
    ensures r.Ok? ==> forall k :: k in m && NotALabel(children, k) ==> r.value[k] == m[k]
    decreases |children|
  {
    if children == [] then Ok(m)
    else match AppendValue(m, Label(children[0]), Kids(children[0]))
      case Err(e) => Err(e)
      case Ok(m') => FieldsToMap(m', children[1..])
  }

  /** `DoQuery`'s loop over the `record` elements: any bad value node fails the whole call. */
  function DoQueryRecords(records: seq<Node>): (r: Result<seq<Record>, FieldError>)
    ensures r.Ok? ==> |r.value| == |records|
    ensures r.Ok? ==> forall j :: 0 <= j < |records| ==> FieldsToMap(map[], Kids(records[j])) == Ok(r.value[j])
    decreases |records|
  {
    if records == [] then Ok([])
    else match FieldsToMap(map[], Kids(records[0]))
      case Err(e) => Err(e)
      case Ok(r) =>
        match DoQueryRecords(records[1..])
        case Err(e) => Err(e)
        case Ok(rs) =>
          assert forall j :: 1 <= j < |records| ==> records[j] == records[1..][j - 1];
          Ok([r] + rs)
  }

  // ---------------------------------------------------------------------------
  // Reference reading of a field value
  // ---------------------------------------------------------------------------

  /** The error a value node of field `field` raises, if any. */
  function ErrorFor(field: string, g: Node): Option<FieldError> {
    match g
    case Text(_) => None
    case Element(t, _) => if t == "BR" then None else Some(TagInValue(t, field))
    case Misc => Some(NonTextInValue(field))
  }

  /** A field's value nodes read as one string: the text fragments with "\r" for every `BR`. */
  function FieldText(gs: seq<Node>): string
    decreases |gs|
  {
    if gs == [] then ""
    else (match gs[0] case Text(v) => v case _ => "\r") + FieldText(gs[1..])
  }

  /** All value nodes of all fields are text or `BR`. */
  predicate AllAllowed(children: seq<Node>) {
    forall i, j :: 0 <= i < |children| && 0 <= j < |Kids(children[i])| ==> ErrorFor(Label(children[i]), Kids(children[i])[j]).None?
  }

  /** Every value node of the field at `i` is text or `BR`. */
  predicate FieldAllowed(children: seq<Node>, i: int)
    requires 0 <= i < |children|
  {
    forall j :: 0 <= j < |Kids(children[i])| ==> ErrorFor(Label(children[i]), Kids(children[i])[j]).None?
  }

  /**
   The error `e` is raised by the first value node, in document order, that is
   neither text nor `BR`: value node `j` of field `i`.
   */
  predicate FirstRaisedAt(children: seq<Node>, i: int, j: int, e: FieldError) {
    && 0 <= i < |children|
    && FirstBad(Label(children[i]), Kids(children[i]), j)
    && ErrorFor(Label(children[i]), Kids(children[i])[j]) == Some(e)
    && forall i' :: 0 <= i' < i ==> FieldAllowed(children, i')
  }

  predicate FirstRaised(children: seq<Node>, e: FieldError) {
    exists i, j :: 0 <= i < |children| && 0 <= j < |Kids(children[i])| && FirstRaisedAt(children, i, j, e)
  }

  /** Some field labelled `k` has at least one value node. */
  predicate HasValue(children: seq<Node>, k: string) {
    exists i :: 0 <= i < |children| && Label(children[i]) == k && Kids(children[i]) != []
  }

  /** The values of all fields labelled `k`, in document order, concatenated. */
  function ValueOf(children: seq<Node>, k: string): string
    decreases |children|
  {
    if children == [] then ""
    else (if Label(children[0]) == k then FieldText(Kids(children[0])) else "") + ValueOf(children[1..], k)
  }

  /** The value node at `j` is the first one, in document order, that is neither text nor `BR`. */
  predicate FirstBad(field: string, gs: seq<Node>, j: int) {
    && 0 <= j < |gs|
    && ErrorFor(field, gs[j]).Some?
    && forall i :: 0 <= i < j ==> ErrorFor(field, gs[i]).None?
  }

  lemma {:induction false} AppendValueReads(m: Record, field: string, gs: seq<Node>)
    ensures AppendValue(m, field, gs).Ok? <==> forall j :: 0 <= j < |gs| ==> ErrorFor(field, gs[j]).None?
    ensures AppendValue(m, field, gs).Err? ==> exists j :: FirstBad(field, gs, j) && ErrorFor(field, gs[j]) == Some(AppendValue(m, field, gs).error)
    ensures AppendValue(m, field, gs).Ok? ==>
              AppendValue(m, field, gs).value == if gs == [] then m else m[field := GetOrEmpty(m, field) + FieldText(gs)]
    decreases |gs|
  {
    AppendValueAccepts(m, field, gs);
    AppendValueBlames(m, field, gs);
    AppendValueAppends(m, field, gs);
  }

  /** The entry after the first value node, when that node is text or `BR`. */
  function Appended(m: Record, field: string, g: Node): Record {
    m[field := GetOrEmpty(m, field) + match g case Text(v) => v case _ => "\r"]
  }

  lemma {:induction false} AppendValueAccepts(m: Record, field: string, gs: seq<Node>)
    ensures AppendValue(m, field, gs).Ok? <==> forall j :: 0 <= j < |gs| ==> ErrorFor(field, gs[j]).None?
    decreases |gs|
  {
    if gs != [] {
      AppendValueAccepts(Appended(m, field, gs[0]), field, gs[1..]);
      assert forall j :: 1 <= j < |gs| ==> gs[j] == gs[1..][j - 1];
    }
  }

  lemma {:induction false} AppendValueBlames(m: Record, field: string, gs: seq<Node>)
    ensures AppendValue(m, field, gs).Err? ==> exists j :: FirstBad(field, gs, j) && ErrorFor(field, gs[j]) == Some(AppendValue(m, field, gs).error)
    decreases |gs|
  {
    if gs != [] && ErrorFor(field, gs[0]).None? {
      var m' := Appended(m, field, gs[0]);
      AppendValueBlames(m', field, gs[1..]);
      assert AppendValue(m, field, gs) == AppendValue(m', field, gs[1..]);
      if AppendValue(m', field, gs[1..]).Err? {
        var j :| FirstBad(field, gs[1..], j) && ErrorFor(field, gs[1..][j]) == Some(AppendValue(m', field, gs[1..]).error);
        forall i | 1 <= i <= j ensures gs[i] == gs[1..][i - 1] { }
        assert FirstBad(field, gs, j + 1);
      }
    } else if gs != [] {
      assert FirstBad(field, gs, 0);
    }
  }

  lemma {:induction false} AppendValueAppends(m: Record, field: string, gs: seq<Node>)
    ensures AppendValue(m, field, gs).Ok? ==>
              AppendValue(m, field, gs).value == if gs == [] then m else m[field := GetOrEmpty(m, field) + FieldText(gs)]
    decreases |gs|
  {
    if gs != [] && ErrorFor(field, gs[0]).None? {
      var frag := match gs[0] case Text(v) => v case _ => "\r";
      var m' := Appended(m, field, gs[0]);
      AppendValueAppends(m', field, gs[1..]);
      assert AppendValue(m, field, gs) == AppendValue(m', field, gs[1..]);
      assert FieldText(gs) == frag + FieldText(gs[1..]);
      if gs[1..] != [] {
        assert GetOrEmpty(m', field) + FieldText(gs[1..]) == GetOrEmpty(m, field) + FieldText(gs);
      } else {
        assert FieldText(gs) == frag + "" == frag;
        assert m' == m[field := GetOrEmpty(m, field) + frag];
      }
    }
  }

  lemma ChildrenShift(children: seq<Node>)
    requires children != []
    ensures AllAllowed(children) <==>
              (forall j :: 0 <= j < |Kids(children[0])| ==> ErrorFor(Label(children[0]), Kids(children[0])[j]).None?)
              && AllAllowed(children[1..])
    ensures FieldAllowed(children, 0) ==> forall e :: FirstRaised(children[1..], e) ==> FirstRaised(children, e)
  {
    var rest := children[1..];
    forall i | 0 <= i < |rest| ensures rest[i] == children[i + 1] { }
    if AllAllowed(rest) && (forall j :: 0 <= j < |Kids(children[0])| ==> ErrorFor(Label(children[0]), Kids(children[0])[j]).None?) {
      forall i, j | 0 <= i < |children| && 0 <= j < |Kids(children[i])|
        ensures ErrorFor(Label(children[i]), Kids(children[i])[j]).None?
      {
        if i > 0 {
          assert children[i] == rest[i - 1];
        }
      }
    }
    if FieldAllowed(children, 0) {
      forall e | FirstRaised(rest, e) ensures FirstRaised(children, e) {
        var i, j :| 0 <= i < |rest| && 0 <= j < |Kids(rest[i])| && FirstRaisedAt(rest, i, j, e);
        assert rest[i] == children[i + 1];
        forall i' | 0 <= i' < i + 1 ensures FieldAllowed(children, i') {
          if i' > 0 {
            assert FieldAllowed(rest, i' - 1);
          }
        }
        assert FirstRaisedAt(children, i + 1, j, e);
      }
    }
  }

  lemma HasValueShift(children: seq<Node>, k: string)
    requires children != []
    ensures HasValue(children, k) <==> (Label(children[0]) == k && Kids(children[0]) != []) || HasValue(children[1..], k)
  {
    var rest := children[1..];
    if HasValue(children, k) && !(Label(children[0]) == k && Kids(children[0]) != []) {
      var i :| 0 <= i < |children| && Label(children[i]) == k && Kids(children[i]) != [];
      assert rest[i - 1] == children[i];
    }
    if HasValue(rest, k) {
      var i :| 0 <= i < |rest| && Label(rest[i]) == k && Kids(rest[i]) != [];
      assert rest[i] == children[i + 1];
    }
  }

  /** Key `k` of `r` is key `k` of `m` with the value of every field labelled `k` appended. */
  predicate KeyReads(m: Record, children: seq<Node>, r: Record, k: string) {
    && (k in r <==> k in m || HasValue(children, k))
    && (k in r ==> r[k] == GetOrEmpty(m, k) + ValueOf(children, k))
  }

  ghost predicate MapReads(m: Record, children: seq<Node>, r: Record) {
    forall k :: KeyReads(m, children, r, k)
  }

  lemma FirstFieldKey(m: Record, children: seq<Node>, m': Record, r: Record, k: string)
    requires children != []
    requires m' == if Kids(children[0]) == [] then m
                   else m[Label(children[0]) := GetOrEmpty(m, Label(children[0])) + FieldText(Kids(children[0]))]
    requires KeyReads(m', children[1..], r, k)
    ensures KeyReads(m, children, r, k)
  {
    if Kids(children[0]) == [] {
      EmptyFieldReads(m, children, r, k);
    } else if Label(children[0]) == k {
      SameFieldReads(m, children, r, k);
    } else {
      OtherFieldReads(m, children, r, k);
    }
  }

  lemma EmptyFieldReads(m: Record, children: seq<Node>, r: Record, k: string)
    requires children != [] && Kids(children[0]) == []
    requires KeyReads(m, children[1..], r, k)
    ensures KeyReads(m, children, r, k)
  {
    HasValueShift(children, k);
    EmptyFieldKey(m, children, r, k);
  }

  lemma SameFieldReads(m: Record, children: seq<Node>, r: Record, k: string)
    requires children != [] && Kids(children[0]) != [] && Label(children[0]) == k
    requires KeyReads(m[k := GetOrEmpty(m, k) + FieldText(Kids(children[0]))], children[1..], r, k)
    ensures KeyReads(m, children, r, k)
  {
    var v := FieldText(Kids(children[0]));
    var m1 := m[k := GetOrEmpty(m, k) + v];
    var tail := ValueOf(children[1..], k);
    assert HasValue(children, k) by {
      assert Label(children[0]) == k && Kids(children[0]) != [];
    }
    assert k in m1 && GetOrEmpty(m1, k) == GetOrEmpty(m, k) + v;
    assert k in r && r[k] == (GetOrEmpty(m, k) + v) + tail;
    assert ValueOf(children, k) == v + tail;
    assert (GetOrEmpty(m, k) + v) + tail == GetOrEmpty(m, k) + (v + tail);
  }

  lemma OtherFieldReads(m: Record, children: seq<Node>, r: Record, k: string)
    requires children != [] && Kids(children[0]) != [] && Label(children[0]) != k
    requires KeyReads(m[Label(children[0]) := GetOrEmpty(m, Label(children[0])) + FieldText(Kids(children[0]))], children[1..], r, k)
    ensures KeyReads(m, children, r, k)
  {
    HasValueShift(children, k);
    OtherFieldKey(m, Label(children[0]), GetOrEmpty(m, Label(children[0])) + FieldText(Kids(children[0])), k);
    ValueSkipsOther(children, k);
  }

  lemma EmptyFieldKey(m: Record, children: seq<Node>, r: Record, k: string)
    requires children != [] && Kids(children[0]) == []
    requires KeyReads(m, children[1..], r, k)
    ensures ValueOf(children, k) == ValueOf(children[1..], k)
  {
    assert FieldText(Kids(children[0])) == "";
  }

  lemma OtherFieldKey(m: Record, f: string, v: string, k: string)
    requires f != k
    ensures GetOrEmpty(m[f := v], k) == GetOrEmpty(m, k) && (k in m[f := v] <==> k in m)
  {
  }

  lemma ValueSkipsOther(children: seq<Node>, k: string)
    requires children != [] && Label(children[0]) != k
    ensures ValueOf(children, k) == ValueOf(children[1..], k)
  {
  }

  lemma FirstFieldRead(m: Record, children: seq<Node>, m': Record, r: Record)
    requires children != []
    requires AppendValue(m, Label(children[0]), Kids(children[0])) == Ok(m')
    requires MapReads(m', children[1..], r)
    ensures MapReads(m, children, r)
  {
    AppendValueOk(m, Label(children[0]), Kids(children[0]), m');
    forall k ensures KeyReads(m, children, r, k) {
      FirstFieldKey(m, children, m', r, k);
    }
  }

  lemma AppendValueOk(m: Record, field: string, gs: seq<Node>, m': Record)
    requires AppendValue(m, field, gs) == Ok(m')
    ensures m' == if gs == [] then m else m[field := GetOrEmpty(m, field) + FieldText(gs)]
  {
    AppendValueReads(m, field, gs);
  }

  lemma {:induction false} FieldsToMapReads(m: Record, children: seq<Node>)
    ensures FieldsToMap(m, children).Ok? <==> AllAllowed(children)
    ensures FieldsToMap(m, children).Err? ==> FirstRaised(children, FieldsToMap(m, children).error)
    ensures FieldsToMap(m, children).Ok? ==> MapReads(m, children, FieldsToMap(m, children).value)
    decreases |children|
  {
    if children != [] {
      var c := children[0];
      AppendValueReads(m, Label(c), Kids(c));
      ChildrenShift(children);
      var a := AppendValue(m, Label(c), Kids(c));
      if a.Err? {
        var j :| FirstBad(Label(c), Kids(c), j) && ErrorFor(Label(c), Kids(c)[j]) == Some(a.error);
        assert FirstRaisedAt(children, 0, j, a.error);
      } else {
        FieldsToMapReads(a.value, children[1..]);
        assert FieldsToMap(m, children) == FieldsToMap(a.value, children[1..]);
        if FieldsToMap(a.value, children[1..]).Ok? {
          FirstFieldRead(m, children, a.value, FieldsToMap(a.value, children[1..]).value);
        }
      }
    } else {
      forall k ensures KeyReads(m, children, m, k) {
        assert !HasValue(children, k) && ValueOf(children, k) == "";
      }
    }
  }

  /**
   `DoQuery`'s records: the call fails exactly when some value node is neither text
   nor `BR`, and then with the error of the first such node in document order;
   otherwise there is one map per `record` element, holding a key for every label
   that has a value node, whose value is the concatenation, in document order, of
   the text of all fields with that label, a `BR` read as "\r".
   */
  lemma DoQueryReads(records: seq<Node>)
    ensures DoQueryRecords(records).Ok? <==> forall j :: 0 <= j < |records| ==> AllAllowed(Kids(records[j]))
    ensures DoQueryRecords(records).Err? ==>
              exists j :: 0 <= j < |records| && FirstRaised(Kids(records[j]), DoQueryRecords(records).error)
                          && forall j' :: 0 <= j' < j ==> AllAllowed(Kids(records[j']))
    ensures DoQueryRecords(records).Ok? ==>
              var rs := DoQueryRecords(records).value;
              && |rs| == |records|
              && forall j, k :: 0 <= j < |records| ==>
                   && (k in rs[j] <==> HasValue(Kids(records[j]), k))
                   && (k in rs[j] ==> rs[j][k] == ValueOf(Kids(records[j]), k))
  {
    DoQueryBlames(records);
    DoQueryMaps(records);
  }

  lemma {:induction false} DoQueryBlames(records: seq<Node>)
    ensures DoQueryRecords(records).Ok? <==> forall j :: 0 <= j < |records| ==> AllAllowed(Kids(records[j]))
    ensures DoQueryRecords(records).Err? ==>
              exists j :: 0 <= j < |records| && FirstRaised(Kids(records[j]), DoQueryRecords(records).error)
                          && forall j' :: 0 <= j' < j ==> AllAllowed(Kids(records[j']))
    decreases |records|
  {
    if records != [] {
      FieldsToMapReads(map[], Kids(records[0]));
      DoQueryBlames(records[1..]);
      forall j | 0 <= j < |records[1..]| ensures records[1..][j] == records[j + 1] { }
    }
  }

  lemma DoQueryMaps(records: seq<Node>)
    ensures DoQueryRecords(records).Ok? ==>
              var rs := DoQueryRecords(records).value;
              forall j, k :: 0 <= j < |records| ==>
                && (k in rs[j] <==> HasValue(Kids(records[j]), k))
                && (k in rs[j] ==> rs[j][k] == ValueOf(Kids(records[j]), k))
  {
    if DoQueryRecords(records).Ok? {
      var rs := DoQueryRecords(records).value;
      forall j, k | 0 <= j < |records|
        ensures k in rs[j] <==> HasValue(Kids(records[j]), k)
        ensures k in rs[j] ==> rs[j][k] == ValueOf(Kids(records[j]), k)
      {
        RecordReads(Kids(records[j]), rs[j], k);
      }
    }
  }

  /** One record built from an empty map holds, under each label, the reference value. */
  lemma RecordReads(children: seq<Node>, r: Record, k: string)
    requires FieldsToMap(map[], children) == Ok(r)
    ensures k in r <==> HasValue(children, k)
    ensures k in r ==> r[k] == ValueOf(children, k)
  {
    FieldsToMapReads(map[], children);
    assert KeyReads(map[], children, r, k);
    assert GetOrEmpty(map[], k) == "";
  }

  /** A multi-line field comes back with its lines joined by carriage returns. */
  lemma MultiLineField(a: string, b: string)
    ensures DoQueryRecords([Element("record", [Element("notes", [Text(a), Element("BR", []), Text(b)])])])
         == Ok([map["notes" := a + "\r" + b]])
  {
    var kids := [Text(a), Element("BR", []), Text(b)];
    var ch := [Element("notes", kids)];
    FieldsToMapReads(map[], ch);
    assert AllAllowed(ch);
    var r := FieldsToMap(map[], ch).value;
    assert FieldText(kids[2..]) == b;
    assert FieldText(kids[1..]) == "\r" + b;
    assert ValueOf(ch, "notes") == a + "\r" + b;
    forall k ensures k in r <==> k == "notes" {
      assert KeyReads(map[], ch, r, k);
      if HasValue(ch, k) {
        var i :| 0 <= i < |ch| && Label(ch[i]) == k && Kids(ch[i]) != [];
      }
      if k == "notes" {
        assert Label(ch[0]) == k && Kids(ch[0]) != [];
      }
    }
    assert KeyReads(map[], ch, r, "notes");
    assert GetOrEmpty(map[], "notes") == "";
    assert r["notes"] == a + "\r" + b;
    assert r.Keys == {"notes"};
    assert r == map["notes" := a + "\r" + b];
    var recs := [Element("record", ch)];
    assert Kids(recs[0]) == ch && recs[1..] == [];
    assert [r] + [] == [r];
  }

  // ---------------------------------------------------------------------------
  // DoStructuredQuery
  // ---------------------------------------------------------------------------

  /**
   One child of a structured `record` element, as `Ai("", "id")` and `GetValue()` read
   it: its `id` attribute as a number and its text. Every child counts, not only the
   field elements: a whitespace text node or an element without an `id` reads as id 0.
   */
  datatype StructuredField = StructuredField(id: int, value: string)

  /** The field element at `i` is the last one with its id. */
  predicate LastOfId(cs: seq<StructuredField>, i: nat)
    requires i < |cs|
  {
    forall j :: i < j < |cs| ==> cs[j].id != cs[i].id
  }

  /** The id-keyed map of one structured record: one key per id, the last field with an id wins. */
  method StructuredRecord(cs: seq<StructuredField>) returns (m: map<int, string>)
    ensures forall id :: id in m <==> exists i :: 0 <= i < |cs| && cs[i].id == id
    ensures forall i :: 0 <= i < |cs| && LastOfId(cs, i) ==> m[cs[i].id] == cs[i].value
  {
    m := map[];
    var n := 0;
    while n < |cs|
      invariant 0 <= n <= |cs|
      invariant forall id :: id in m <==> exists i :: 0 <= i < n && cs[i].id == id
      invariant forall i :: 0 <= i < n && (forall j :: i < j < n ==> cs[j].id != cs[i].id) ==> m[cs[i].id] == cs[i].value
    {
      m := m[cs[n].id := cs[n].value];
      n := n + 1;
    }
  }

  /** `DoStructuredQuery`'s loop: one id-keyed map per `record` element, in order. */
  method DoStructuredQueryRecords(records: seq<seq<StructuredField>>) returns (rs: seq<map<int, string>>)
    ensures |rs| == |records|
    ensures forall k, id :: 0 <= k < |records| ==> (id in rs[k] <==> exists i :: 0 <= i < |records[k]| && records[k][i].id == id)
    ensures forall k, i :: 0 <= k < |records| && 0 <= i < |records[k]| && LastOfId(records[k], i)
              ==> rs[k][records[k][i].id] == records[k][i].value
  {
    rs := [];
    var n := 0;
    while n < |records|
      invariant 0 <= n <= |records| && |rs| == n
      invariant forall k, id :: 0 <= k < n ==> (id in rs[k] <==> exists i :: 0 <= i < |records[k]| && records[k][i].id == id)
      invariant forall k, i :: 0 <= k < n && 0 <= i < |records[k]| && LastOfId(records[k], i)
                  ==> rs[k][records[k][i].id] == records[k][i].value
    {
      var m := StructuredRecord(records[n]);
      rs := rs + [m];
      n := n + 1;
    }
  }
}
