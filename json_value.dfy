/**
 * Decoded JSON values, as `json.loads` hands them to the pipeline, and the
 * Python built-ins the inference engine applies to them: `dict.get`,
 * `type(v).__name__` and `str(v)`.
 */
module JsonValue {
  import opened Wrappers
  import opened PyText

  /** A JSON value. An object keeps its members in document order. */
  datatype Json =
    | JNull
    | JBool(b: bool)
    | JInt(n: int)
    | JStr(s: string)
    | JArr(items: seq<Json>)
    | JObj(fields: seq<(string, Json)>)

  /** The value bound to `key`; when a key repeats, the last binding wins, as in `json.loads`. */
  function Lookup(fields: seq<(string, Json)>, key: string): Option<Json> {
    if fields == [] then None
    else if fields[|fields| - 1].0 == key then Some(fields[|fields| - 1].1)
    else Lookup(fields[..|fields| - 1], key)
  }

  /**
   * The position of the last binding of `key` among `fields[..n]`, or -1; its
   * value is what `Lookup` returns.
   */
  function LastBinding(fields: seq<(string, Json)>, key: string, n: nat): (j: int)
    requires n <= |fields|
    ensures -1 <= j < n
    ensures forall k :: j < k < n ==> fields[k].0 != key
    ensures j >= 0 ==> fields[j].0 == key && Lookup(fields[..n], key) == Some(fields[j].1)
    ensures j < 0 ==> Lookup(fields[..n], key) == None
  {
    assert n > 0 ==> fields[..n][..n - 1] == fields[..n - 1];
    if n == 0 then -1
    else if fields[n - 1].0 == key then n - 1
    else LastBinding(fields, key, n - 1)
  }

  /**
   * The bindings a dict built from `fields` holds, from position `i` on: each
   * key first bound at or after `i`, in the order of its first binding, shown
   * through the position of its last binding (`DictShown` proves this).
   */
  function ShownFrom(fields: seq<(string, Json)>, i: nat): (shown: seq<nat>)
    requires i <= |fields|
    ensures forall m :: 0 <= m < |shown| ==> i <= shown[m] < |fields|
    decreases |fields| - i
  {
    if i == |fields| then []
    else
      var key := fields[i].0;
      var rest := ShownFrom(fields, i + 1);
      if Lookup(fields[..i], key).Some? then rest
      else [LastBinding(fields, key, |fields|)] + rest
  }

  /** Binding one more key: the new binding wins for its key, the others are unchanged. */
  lemma LookupSnoc(fields: seq<(string, Json)>, i: nat, key: string)
    requires i < |fields|
    ensures Lookup(fields[..i + 1], key) == if fields[i].0 == key then Some(fields[i].1) else Lookup(fields[..i], key)
  {
    assert fields[..i + 1][..i] == fields[..i];
  }

  /** Every binding `ShownFrom` picks carries the value `Lookup` finds, for a key not bound before `i`. */
  lemma {:induction false} ShownFromValues(fields: seq<(string, Json)>, i: nat)
    requires i <= |fields|
    ensures forall m :: 0 <= m < |ShownFrom(fields, i)| ==>
      && Lookup(fields, fields[ShownFrom(fields, i)[m]].0) == Some(fields[ShownFrom(fields, i)[m]].1)
      && Lookup(fields[..i], fields[ShownFrom(fields, i)[m]].0) == None
    decreases |fields| - i
  {
    if i < |fields| {
      ShownFromValues(fields, i + 1);
      var rest := ShownFrom(fields, i + 1);
      forall m | 0 <= m < |rest|
        ensures Lookup(fields[..i], fields[rest[m]].0) == None
      {
        assert Lookup(fields[..i + 1], fields[rest[m]].0) == None;
        LookupSnoc(fields, i, fields[rest[m]].0);
      }
      var key := fields[i].0;
      if Lookup(fields[..i], key).None? {
        var j := LastBinding(fields, key, |fields|);
        assert fields[..|fields|] == fields;
        assert j >= i;
        assert Lookup(fields, key) == Some(fields[j].1);
        assert ShownFrom(fields, i) == [j] + rest;
      }
    }
  }

  /** `ShownFrom` picks each key at most once. */
  lemma {:induction false} ShownFromDistinct(fields: seq<(string, Json)>, i: nat)
    requires i <= |fields|
    ensures forall m, m' :: 0 <= m < m' < |ShownFrom(fields, i)| ==>
      fields[ShownFrom(fields, i)[m]].0 != fields[ShownFrom(fields, i)[m']].0
    decreases |fields| - i
  {
    if i < |fields| {
      ShownFromDistinct(fields, i + 1);
      ShownFromValues(fields, i + 1);
      var key := fields[i].0;
      var rest := ShownFrom(fields, i + 1);
      forall m | 0 <= m < |rest|
        ensures fields[rest[m]].0 != key
      {
        assert Lookup(fields[..i + 1], fields[rest[m]].0) == None;
        LookupSnoc(fields, i, fields[rest[m]].0);
      }
      if Lookup(fields[..i], key).None? {
        var j := LastBinding(fields, key, |fields|);
        assert j >= i && fields[j].0 == key;
        var shown := ShownFrom(fields, i);
        assert shown == [j] + rest;
        forall m, m' | 0 <= m < m' < |shown|
          ensures fields[shown[m]].0 != fields[shown[m']].0
        {
          if m == 0 {
            assert shown[m'] == rest[m' - 1];
          } else {
            assert shown[m] == rest[m - 1] && shown[m'] == rest[m' - 1];
          }
        }
      } else {
        assert ShownFrom(fields, i) == rest;
      }
    }
  }

  /** Some position in `shown` holds a binding of `key`. */
  predicate ShowsKey(fields: seq<(string, Json)>, shown: seq<nat>, key: string) {
    exists m :: 0 <= m < |shown| && shown[m] < |fields| && fields[shown[m]].0 == key
  }

  /** One step of `ShownFromCovers`, for the entry at `k`. */
  lemma CoversOne(fields: seq<(string, Json)>, i: nat, k: nat)
    requires i <= k < |fields| && Lookup(fields[..i], fields[k].0) == None
    requires forall k' :: i + 1 <= k' < |fields| && Lookup(fields[..i + 1], fields[k'].0) == None ==>
      ShowsKey(fields, ShownFrom(fields, i + 1), fields[k'].0)
    ensures ShowsKey(fields, ShownFrom(fields, i), fields[k].0)
  {
    var key := fields[i].0;
    var rest := ShownFrom(fields, i + 1);
    var shown := ShownFrom(fields, i);
    LookupSnoc(fields, i, fields[k].0);
    if fields[k].0 == key {
      var j := LastBinding(fields, key, |fields|);
      assert j >= i && fields[j].0 == key;
      assert shown == [j] + rest;
      assert shown[0] < |fields| && fields[shown[0]].0 == fields[k].0;
    } else {
      assert Lookup(fields[..i + 1], fields[k].0) == None && i + 1 <= k;
      assert ShowsKey(fields, rest, fields[k].0);
      var m' :| 0 <= m' < |rest| && rest[m'] < |fields| && fields[rest[m']].0 == fields[k].0;
      if Lookup(fields[..i], key).Some? {
        assert shown == rest;
        assert shown[m'] < |fields| && fields[shown[m']].0 == fields[k].0;
      } else {
        assert shown == [LastBinding(fields, key, |fields|)] + rest;
        assert shown[m' + 1] < |fields| && fields[shown[m' + 1]].0 == fields[k].0;
      }
    }
  }

  /** `ShownFrom` picks every key whose first binding is at or after `i`. */
  lemma {:induction false} ShownFromCovers(fields: seq<(string, Json)>, i: nat)
    requires i <= |fields|
    ensures forall k :: i <= k < |fields| && Lookup(fields[..i], fields[k].0) == None ==>
      ShowsKey(fields, ShownFrom(fields, i), fields[k].0)
    decreases |fields| - i
  {
    if i < |fields| {
      ShownFromCovers(fields, i + 1);
      forall k | i <= k < |fields| && Lookup(fields[..i], fields[k].0) == None
        ensures ShowsKey(fields, ShownFrom(fields, i), fields[k].0)
      {
        CoversOne(fields, i, k);
      }
    }
  }

  /** Some binding of `a` comes before every binding of `b`. */
  predicate BoundBefore(fields: seq<(string, Json)>, a: string, b: string) {
    exists p :: 0 <= p < |fields| && fields[p].0 == a && forall q :: 0 <= q <= p ==> fields[q].0 != b
  }

  /**
   * When the key at `i` is bound there for the first time, `ShownFrom(fields, i)`
   * lists it first, and its first binding comes before every later key's.
   */
  lemma OrderFirst(fields: seq<(string, Json)>, i: nat, m: nat)
    requires i < |fields| && Lookup(fields[..i], fields[i].0) == None
    requires 0 < m < |ShownFrom(fields, i)|
    ensures ShownFrom(fields, i) == [LastBinding(fields, fields[i].0, |fields|)] + ShownFrom(fields, i + 1)
    ensures BoundBefore(fields, fields[ShownFrom(fields, i)[0]].0, fields[ShownFrom(fields, i)[m]].0)
  {
    ShownFromValues(fields, i + 1);
    var rest := ShownFrom(fields, i + 1);
    var j := LastBinding(fields, fields[i].0, |fields|);
    assert fields[..|fields|] == fields;
    assert ShownFrom(fields, i) == [j] + rest;
    var b := fields[rest[m - 1]].0;
    assert Lookup(fields[..i + 1], b) == None;
    var jb := LastBinding(fields, b, i + 1);
    assert jb < 0;
  }

  /** `shown` lists its keys in the order of their first binding. */
  predicate InBindingOrder(fields: seq<(string, Json)>, shown: seq<nat>) {
    forall m, m' :: 0 <= m < m' < |shown| && shown[m'] < |fields| ==>
      shown[m] < |fields| && BoundBefore(fields, fields[shown[m]].0, fields[shown[m']].0)
  }

  /** `ShownFrom` lists the keys in the order of their first binding. */
  lemma {:induction false} ShownFromOrder(fields: seq<(string, Json)>, i: nat)
    requires i <= |fields|
    ensures InBindingOrder(fields, ShownFrom(fields, i))
    decreases |fields| - i
  {
    if i < |fields| {
      ShownFromOrder(fields, i + 1);
      var rest := ShownFrom(fields, i + 1);
      var shown := ShownFrom(fields, i);
      if Lookup(fields[..i], fields[i].0).None? {
        forall m, m' | 0 <= m < m' < |shown| && shown[m'] < |fields|
          ensures shown[m] < |fields| && BoundBefore(fields, fields[shown[m]].0, fields[shown[m']].0)
        {
          OrderFirst(fields, i, m');
          if m > 0 {
            assert shown[m] == rest[m - 1] && shown[m'] == rest[m' - 1];
          }
        }
      } else {
        assert shown == rest;
      }
    }
  }

  /**
   * `str` of a dict shows each key bound in the object once, in the order of
   * its first binding, with the value `Lookup` finds for it.
   */
  lemma DictShown(fields: seq<(string, Json)>)
    ensures var shown := ShownFrom(fields, 0);
      && (forall m :: 0 <= m < |shown| ==> Lookup(fields, fields[shown[m]].0) == Some(fields[shown[m]].1))
      && (forall m, m' :: 0 <= m < m' < |shown| ==> fields[shown[m]].0 != fields[shown[m']].0)
      && (forall k :: 0 <= k < |fields| ==> ShowsKey(fields, shown, fields[k].0))
      && InBindingOrder(fields, shown)
  {
    ShownFromOrder(fields, 0);
    ShownFromValues(fields, 0);
    ShownFromDistinct(fields, 0);
    ShownFromCovers(fields, 0);
    assert fields[..0] == [];
  }

  predicate HasKey(fields: seq<(string, Json)>, key: string) {
    Lookup(fields, key).Some?
  }

  /** `d.get(key, default)`. */
  function GetOr(fields: seq<(string, Json)>, key: string, default: Json): Json {
    match Lookup(fields, key)
    case Some(v) => v
    case None => default
  }

  /** `type(v).__name__`. */
  function TypeName(v: Json): string {
    match v
    case JNull => "NoneType"
    case JBool(_) => "bool"
    case JInt(_) => "int"
    case JStr(_) => "str"
    case JArr(_) => "list"
    case JObj(_) => "dict"
  }

  /** One character of a string literal as `repr` writes it inside quotes `q`. */
  function EscapeChar(c: char, q: char): string {
    if c == '\\' then "\\\\"
    else if c == q then ['\\', q]
    else if c == '\n' then "\\n"
    else if c == '\r' then "\\r"
    else if c == '\t' then "\\t"
    else [c]
  }

  function EscapeAll(s: string, q: char): string {
    if s == [] then "" else EscapeChar(s[0], q) + EscapeAll(s[1..], q)
  }

  /** `repr(s)` for a string: single quotes unless the text holds a single quote and no double quote. */
  function QuoteRepr(s: string): (r: string)
    ensures |r| >= 2
  {
    var q := if '\'' in s && '"' !in s then '"' else '\'';
    [q] + EscapeAll(s, q) + [q]
  }

  function JoinWith(parts: seq<string>, sep: string): string {
    if parts == [] then ""
    else if |parts| == 1 then parts[0]
    else parts[0] + sep + JoinWith(parts[1..], sep)
  }

  /** `repr(v)` when `quoted`, `str(v)` otherwise; containers show their members with `repr`. */
  function Text(v: Json, quoted: bool): (r: string)
    ensures r == [] ==> v == JStr([]) && !quoted
    decreases v
  {
    match v
    case JNull => "None"
    case JBool(b) => if b then "True" else "False"
    case JInt(n) => IntText(n)
    case JStr(s) => if quoted then QuoteRepr(s) else s
    case JArr(items) =>
      "[" + JoinWith(seq(|items|, i requires 0 <= i < |items| => Text(items[i], true)), ", ") + "]"
    case JObj(fields) =>
      var shown := ShownFrom(fields, 0);
      "{" + JoinWith(seq(|shown|, m requires 0 <= m < |shown| =>
                          QuoteRepr(fields[shown[m]].0) + ": " + Text(fields[shown[m]].1, true)), ", ") + "}"
  }

  /**
   * A repeated key is shown once, with its last value: `str` of the object
   * decoded from `{"a": 1, "a": 2}` is `{'a': 2}`.
   */
  lemma StrRepeatedKey()
    ensures Str(JObj([("a", JInt(1)), ("a", JInt(2))])) == "{'a': 2}"
  {
    var fields := [("a", JInt(1)), ("a", JInt(2))];
    assert fields[..1] == [("a", JInt(1))];
    assert fields[..0] == [];
    assert ShownFrom(fields, 2) == [];
    assert ShownFrom(fields, 1) == [];
    assert LastBinding(fields, "a", 2) == 1;
    assert ShownFrom(fields, 0) == [1];
    assert EscapeAll("a", '\'') == EscapeChar('a', '\'') + EscapeAll("a"[1..], '\'');
    assert QuoteRepr("a") == "'a'";
    assert IntText(2) == "2";
  }

  /** Python's `str(v)`; it is empty exactly for the empty string. */
  function Str(v: Json): (r: string)
    ensures r == [] <==> v == JStr([])
    ensures v.JStr? ==> r == v.s
  {
    Text(v, false)
  }
}
