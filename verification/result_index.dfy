/**
 * The results index of `src/context/ResultadosContext.tsx`: `refreshResultados` turns the
 * list of result records the API returns into an object keyed `<auditoriaId>-<controladorId>`.
 * The HTTP exchange is the input `Response`; the object is a map from keys to entries.
 */
module ResultIndex {
  import opened Wrappers
  import opened Text
  import Json

  /**
   * A relation field as the API may send it: missing, a bare number, or an object carrying
   * the id directly (`{id}`) or under `data` (`{data: {id}}`). `None` stands for null or
   * undefined.
   */
  datatype Relation = Absent | Number(n: int) | Related(id: Option<int>, dataId: Option<int>)

  /** A record's `id` as the JSON body gives it: missing (`undefined`), `null`, or a number. */
  datatype RecordId = Undefined | Null | Num(n: int)

  /** The fields of one result record; an empty `documentId` stands for a missing one. */
  datatype Fields = Fields(
    id: RecordId,
    documentId: string,
    tipo: Option<string>,     // `None` also for a `tipo` that is not a string
    controlador: Relation,
    auditoria: Relation)

  /** A result record either wraps its fields in `attributes` or carries them itself. */
  datatype ApiResult = WithAttributes(id: RecordId, attributes: Fields) | Flat(fields: Fields)

  /** An entry of the index. */
  datatype Entry = Entry(id: RecordId, documentId: string, tipo: string, controladorId: int, auditoriaId: int)

  /** How the request ends: no token, a body without a `data` array, a thrown error, or the records. */
  datatype Response = NoToken | Unexpected | Failed | Results(items: seq<ApiResult>)

  type Index = map<string, Entry>

  /** The result types the index accepts. */
  const Accepted: seq<string> := ["conforme", "no_conforme", "observacion", "no_aplica"]

  /** JavaScript truthiness of an optional number: present and not zero. */
  predicate Truthy(o: Option<int>) {
    o.Some? && o.value != 0
  }

  /** JavaScript truthiness of a record id: a number other than zero. */
  predicate IdTruthy(id: RecordId) {
    id.Num? && id.n != 0
  }

  /** `String(x)` of a record id; the two absent ids print as words no number prints as. */
  function IdString(id: RecordId): (s: string)
    ensures s == "undefined" <==> id.Undefined?
    ensures s == "null" <==> id.Null?
    ensures id.Num? ==> s == IntToString(id.n)
  {
    match id
    case Undefined => "undefined"
    case Null => "null"
    case Num(n) =>
      var s := IntToString(n);
      assert s[0] == '-' || IsDigit(s[0]);
      s
  }

  /** `result.attributes || result`. */
  function FieldsOf(r: ApiResult): Fields {
    match r
    case WithAttributes(_, f) => f
    case Flat(f) => f
  }

  /** `result.id || resultado.id`. */
  function EntryId(r: ApiResult): RecordId {
    match r
    case WithAttributes(id, f) => if IdTruthy(id) then id else f.id
    case Flat(f) => f.id
  }

  /** `rel?.id ?? rel?.data?.id ?? (typeof rel === 'number' ? rel : null)`. */
  function Resolve(rel: Relation): (r: Option<int>)
    ensures rel.Absent? ==> r.None?
    ensures rel.Number? ==> r == Some(rel.n)
    ensures rel.Related? ==> r == (if rel.id.Some? then rel.id else rel.dataId)
  {
    match rel
    case Absent => None
    case Number(n) => Some(n)
    case Related(id, dataId) => if id.Some? then id else dataId
  }

  /** The template literal `${auditoriaId}-${controladorId}`. */
  function ResultKey(auditoriaId: int, controladorId: int): (k: string)
    ensures |k| == |IntToString(auditoriaId)| + 1 + |IntToString(controladorId)|
  {
    IntToString(auditoriaId) + "-" + IntToString(controladorId)
  }

  /**
   * What one record contributes to the index: its key and entry when both ids resolve to
   * non-zero numbers and its type is one of the accepted ones, nothing otherwise.
   */
  function Admit(r: ApiResult): (a: Option<(string, Entry)>)
    ensures a.Some? <==>
              && Truthy(Resolve(FieldsOf(r).controlador))
              && Truthy(Resolve(FieldsOf(r).auditoria))
              && FieldsOf(r).tipo.Some? && FieldsOf(r).tipo.value in Accepted
    ensures a.Some? ==>
              var e := a.value.1;
              && Some(e.controladorId) == Resolve(FieldsOf(r).controlador)
              && Some(e.auditoriaId) == Resolve(FieldsOf(r).auditoria)
              && a.value.0 == ResultKey(e.auditoriaId, e.controladorId)
              && Some(e.tipo) == FieldsOf(r).tipo
              && e.id == EntryId(r)
              && e.documentId == (if FieldsOf(r).documentId != "" then FieldsOf(r).documentId
                                  else IdString(EntryId(r)))
  {
    var f := FieldsOf(r);
    var c := Resolve(f.controlador);
    var au := Resolve(f.auditoria);
    if Truthy(c) && Truthy(au) && f.tipo.Some? && f.tipo.value in Accepted then
      var id := EntryId(r);
      var documentId := if f.documentId != "" then f.documentId else IdString(id);
      Some((ResultKey(au.value, c.value), Entry(id, documentId, f.tipo.value, c.value, au.value)))
    else None
  }

  /** The object built by the `forEach`: each admitted record is written in turn, so a later one replaces an earlier one with the same key. */
  function Build(items: seq<ApiResult>): Index {
    if items == [] then map[]
    else
      var m := Build(items[..|items| - 1]);
      match Admit(items[|items| - 1])
      case None => m
      case Some((k, e)) => m[k := e]
  }

  /** Record `i` of `items` is admitted under key `k`. */
  predicate Produces(items: seq<ApiResult>, i: int, k: string) {
    0 <= i < |items| && Admit(items[i]).Some? && Admit(items[i]).value.0 == k
  }

  /** Record `i` is admitted and names audit `auditId` and controller `cId`. */
  predicate Names(items: seq<ApiResult>, i: int, auditId: int, cId: int) {
    0 <= i < |items| && Admit(items[i]).Some?
    && Admit(items[i]).value.1.auditoriaId == auditId && Admit(items[i]).value.1.controladorId == cId
  }

  /** A well-formed entry: stored under its own key, with non-zero ids and an accepted type. */
  predicate WellKeyed(k: string, e: Entry) {
    k == ResultKey(e.auditoriaId, e.controladorId) && e.auditoriaId != 0 && e.controladorId != 0
    && e.tipo in Accepted
  }

  /**
   * `refreshResultados`: without a token, on an unexpected body or on an error the index is
   * left as it was; otherwise it is replaced by the index of the returned records, whatever
   * it held before.
   */
  function Refresh(current: Index, response: Response): (r: Index)
    ensures !response.Results? ==> r == current
    ensures response.Results? ==>
              forall k :: k in r <==> exists i :: Produces(response.items, i, k)
    ensures forall k :: k in r && response.Results? ==> WellKeyed(k, r[k])
  {
    match response
    case Results(items) =>
      BuildKeys(items);
      BuildWellKeyed(items);
      Build(items)
    case _ => current
  }

  // ---------------------------------------------------------------- properties

  /** A key is in the index exactly when some record is admitted under it. */
  lemma {:induction false} BuildKeys(items: seq<ApiResult>)
    ensures forall k :: k in Build(items) <==> exists i :: Produces(items, i, k)
  {
    if items != [] {
      var front := items[..|items| - 1];
      BuildKeys(front);
      forall k ensures k in Build(items) <==> exists i :: Produces(items, i, k) {
        if k in Build(items) && !(k in Build(front)) {
          assert Produces(items, |items| - 1, k);
        }
        if k in Build(front) {
          var i :| Produces(front, i, k);
          assert items[i] == front[i];
          assert Produces(items, i, k);
        }
        if j :| Produces(items, j, k) {
          if j < |items| - 1 {
            assert items[j] == front[j];
            assert Produces(front, j, k);
          }
        }
      }
    }
  }

  /** Every entry of the index sits under the key built from its own ids. */
  lemma {:induction false} BuildWellKeyed(items: seq<ApiResult>)
    ensures forall k :: k in Build(items) ==> WellKeyed(k, Build(items)[k])
  {
    if items != [] {
      BuildWellKeyed(items[..|items| - 1]);
    }
  }

  /** The entry under a key is the one from the last record admitted under that key. */
  lemma {:induction false} BuildLastWins(items: seq<ApiResult>, i: int, k: string)
    requires Produces(items, i, k)
    requires forall j :: i < j < |items| ==> !Produces(items, j, k)
    ensures k in Build(items) && Build(items)[k] == Admit(items[i]).value.1
  {
    var front := items[..|items| - 1];
    if i < |items| - 1 {
      assert !Produces(items, |items| - 1, k);
      assert Produces(front, i, k) by { assert front[i] == items[i]; }
      forall j | i < j < |front| ensures !Produces(front, j, k) {
        assert front[j] == items[j];
        assert !Produces(items, j, k);
      }
      BuildLastWins(front, i, k);
    }
  }

  /** Two keys are equal exactly when both ids are. */
  lemma ResultKeyInjective(a: int, c: int, a': int, c': int)
    ensures ResultKey(a, c) == ResultKey(a', c') <==> a == a' && c == c'
  {
    if ResultKey(a, c) == ResultKey(a', c') {
      var k := ResultKey(a, c);
      var x, x' := IntToString(a), IntToString(a');
      assert k[|x|] == '-' && k[|x'|] == '-';
      assert x == k[..|x|] && x' == k[..|x'|];
      assert IntToString(c) == k[|x| + 1..] && IntToString(c') == k[|x'| + 1..];
      IntToStringInjective(a, a');
      IntToStringInjective(c, c');
    }
  }

  /** A record is admitted under the key of an audit and a controller exactly when it names both. */
  lemma ProducesNames(items: seq<ApiResult>, i: int, auditId: int, cId: int)
    ensures Produces(items, i, ResultKey(auditId, cId)) <==> Names(items, i, auditId, cId)
  {
    if 0 <= i < |items| && Admit(items[i]).Some? {
      var e := Admit(items[i]).value.1;
      ResultKeyInjective(auditId, cId, e.auditoriaId, e.controladorId);
    }
  }

  /** `String(n)` tells numbers apart. */
  lemma IntToStringInjective(m: int, n: int)
    requires IntToString(m) == IntToString(n)
    ensures m == n
  {
    var s := IntToString(m);
    if m < 0 {
      assert n < 0;
      var a, b := NatToString(-m), NatToString(-n);
      assert s == "-" + a == "-" + b;
      assert a == s[1..] == b;
      Json.DigitsValueOf(-m);
      Json.DigitsValueOf(-n);
    } else {
      assert n >= 0;
      assert NatToString(m) == s == NatToString(n);
      Json.DigitsValueOf(m);
      Json.DigitsValueOf(n);
    }
  }

  /** Distinct record ids print differently. */
  lemma IdStringInjective(a: RecordId, b: RecordId)
    ensures IdString(a) == IdString(b) <==> a == b
  {
    if IdString(a) == IdString(b) && a.Num? && b.Num? {
      IntToStringInjective(a.n, b.n);
    }
  }

  /** A key has a dash after its first character; a printed number never does. */
  lemma KeyIsNotANumber(a: int, c: int, n: int)
    ensures ResultKey(a, c) != IntToString(n)
  {
    var k := ResultKey(a, c);
    assert k[|IntToString(a)|] == '-';
  }

  /** Looking the index up by a bare id, as `String(id)` would, never finds anything. */
  lemma NoBareIdKey(items: seq<ApiResult>, n: int)
    ensures IntToString(n) !in Build(items)
  {
    BuildWellKeyed(items);
    if IntToString(n) in Build(items) {
      var e := Build(items)[IntToString(n)];
      KeyIsNotANumber(e.auditoriaId, e.controladorId, n);
    }
  }
}
