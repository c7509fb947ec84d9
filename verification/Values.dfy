/** Column values and the comparison the seeder makes between them. */
module Values {

  /** A Python value as it comes from a manifest or from the database driver. */
  datatype Value =
    | Null
    | Bool(b: bool)
    | Int(i: int)
    | Float(f: real)
    | Decimal(d: real)
    | Text(s: string)
    | List(items: seq<Value>)
    | Dict(fields: map<string, Value>)

  /** The columns a key, a constraint or a removal looks at by name, and all others. */
  datatype Column =
    | Id | CapabilityId | DependsOnId | Kind | ProviderId | AdapterId | FallbackAdapterId | Reason | Ordinal
    | Enabled | Scope | Other(name: string)

  type Row = map<Column, Value>

  /** `_canon`: decimals become floats, at every depth. JSON text with sorted keys is an injective
      image of the result, so comparing texts (`_norm`) is comparing canonical values. */
  function Canon(v: Value): Value {
    match v
    case Decimal(d) => Float(d)
    case List(items) => List(seq(|items|, i requires 0 <= i < |items| => Canon(items[i])))
    case Dict(fields) => Dict(map k | k in fields :: Canon(fields[k]))
    case _ => v
  }

  function Get(row: Row, column: Column): Value {
    if column in row then row[column] else Null
  }

  predicate Differs(desired: Row, current: Row) {
    exists c :: c in desired && Canon(desired[c]) != Canon(Get(current, c))
  }

  predicate Plain(v: Value) {
    match v
    case Decimal(_) => false
    case List(items) => forall x :: x in items ==> Plain(x)
    case Dict(fields) => forall k :: k in fields ==> Plain(fields[k])
    case _ => true
  }

  /** Canonical values hold no decimal and are their own canonical form. */
  lemma {:induction false} CanonIsPlain(v: Value)
    ensures Plain(Canon(v)) && (Plain(v) ==> Canon(v) == v)
  {
    match v
    case List(items) =>
      forall i | 0 <= i < |items| ensures Plain(Canon(items[i])) && (Plain(items[i]) ==> Canon(items[i]) == items[i]) {
        CanonIsPlain(items[i]);
      }
      assert Plain(v) ==> Canon(v).items == items;
    case Dict(fields) =>
      forall k | k in fields ensures Plain(Canon(fields[k])) && (Plain(fields[k]) ==> Canon(fields[k]) == fields[k]) {
        CanonIsPlain(fields[k]);
      }
      assert Plain(v) ==> Canon(v).fields == fields;
    case _ =>
  }

  predicate IsNumber(v: Value) {
    v.Float? || v.Decimal?
  }

  function NumberOf(v: Value): real
    requires IsNumber(v)
  {
    if v.Float? then v.f else v.d
  }

  /** The same value up to how its numbers are held: a float and a decimal of one number are the same, at
      every depth, and nothing else is. */
  predicate SameValue(v: Value, w: Value) {
    match v
    case Float(_) | Decimal(_) => IsNumber(w) && NumberOf(v) == NumberOf(w)
    case List(items) => w.List? && |items| == |w.items| && forall i :: 0 <= i < |items| ==> SameValue(items[i], w.items[i])
    case Dict(fields) => w.Dict? && fields.Keys == w.fields.Keys && forall k :: k in fields ==> SameValue(fields[k], w.fields[k])
    case _ => v == w
  }

  lemma ListCanonIff(a: seq<Value>, b: seq<Value>)
    requires |a| == |b| ==> forall i :: 0 <= i < |a| ==> (Canon(a[i]) == Canon(b[i]) <==> SameValue(a[i], b[i]))
    ensures Canon(List(a)) == Canon(List(b)) <==> SameValue(List(a), List(b))
  {
    var x, y := Canon(List(a)).items, Canon(List(b)).items;
    assert |x| == |a| && |y| == |b|;
    assert forall i :: 0 <= i < |a| ==> x[i] == Canon(a[i]);
    assert forall i :: 0 <= i < |b| ==> y[i] == Canon(b[i]);
    assert Canon(List(a)) == Canon(List(b)) <==> x == y;
  }

  lemma DictCanonIff(a: map<string, Value>, b: map<string, Value>)
    requires a.Keys == b.Keys ==> forall k :: k in a ==> (Canon(a[k]) == Canon(b[k]) <==> SameValue(a[k], b[k]))
    ensures Canon(Dict(a)) == Canon(Dict(b)) <==> SameValue(Dict(a), Dict(b))
  {
    var x, y := Canon(Dict(a)).fields, Canon(Dict(b)).fields;
    assert x.Keys == a.Keys && y.Keys == b.Keys;
    assert forall k :: k in a ==> x[k] == Canon(a[k]);
    assert forall k :: k in b ==> y[k] == Canon(b[k]);
    assert Canon(Dict(a)) == Canon(Dict(b)) <==> x == y;
  }

  /** Values have one canonical form exactly when they are the same up to how numbers are held. */
  lemma {:induction false} SameCanonIff(v: Value, w: Value)
    ensures Canon(v) == Canon(w) <==> SameValue(v, w)
  {
    if v.List? && w.List? {
      if |v.items| == |w.items| {
        forall i | 0 <= i < |v.items| ensures Canon(v.items[i]) == Canon(w.items[i]) <==> SameValue(v.items[i], w.items[i]) {
          SameCanonIff(v.items[i], w.items[i]);
        }
      }
      ListCanonIff(v.items, w.items);
    } else if v.Dict? && w.Dict? {
      if v.fields.Keys == w.fields.Keys {
        forall k | k in v.fields ensures Canon(v.fields[k]) == Canon(w.fields[k]) <==> SameValue(v.fields[k], w.fields[k]) {
          SameCanonIff(v.fields[k], w.fields[k]);
        }
      }
      DictCanonIff(v.fields, w.fields);
    }
  }

  /** A row is to be written exactly when the row found does not have the same value in some column. */
  lemma DiffersIff(desired: Row, current: Row)
    ensures Differs(desired, current) <==> exists c :: c in desired && !SameValue(desired[c], Get(current, c))
  {
    hide Canon, SameValue;
    forall c | c in desired ensures Canon(desired[c]) == Canon(Get(current, c)) <==> SameValue(desired[c], Get(current, c)) {
      SameCanonIff(desired[c], Get(current, c));
    }
  }
}
