/** The JSON values `json.loads` produces, and the few Python operations the
    import service applies to them: key lookup, assignment and `pop` on a
    dict, and `str()` of a list element. */
module Json {
  import opened Text
  import opened Wrappers

  /** A parsed JSON value. Objects keep their keys in insertion order, as a
      Python dict does. Numbers are modelled as integers. */
  datatype Json =
    | JNull
    | JBool(b: bool)
    | JInt(n: int)
    | JString(s: string)
    | JArray(items: seq<Json>)
    | JObject(fields: seq<Field>)

  datatype Field = Field(key: string, value: Json)

  /** `key in d`, true when some field carries `key`. */
  predicate Has(fields: seq<Field>, key: string) {
    exists i :: 0 <= i < |fields| && fields[i].key == key
  }

  /** A key found past the first field is found in the tail, and back. */
  lemma HasTail(fields: seq<Field>, key: string)
    requires |fields| > 0 && fields[0].key != key
    ensures Has(fields, key) <==> Has(fields[1..], key)
  {
    if Has(fields, key) {
      var i :| 0 <= i < |fields| && fields[i].key == key;
      assert fields[1..][i - 1].key == key;
    }
    if Has(fields[1..], key) {
      var i :| 0 <= i < |fields| - 1 && fields[1..][i].key == key;
      assert fields[i + 1].key == key;
    }
  }

  /** `d.get(key)`: the value of the first field carrying `key`. */
  function Lookup(fields: seq<Field>, key: string): (r: Option<Json>)
    ensures r.Some? <==> Has(fields, key)
  {
    if |fields| == 0 then None
    else if fields[0].key == key then Some(fields[0].value)
    else
      HasTail(fields, key);
      Lookup(fields[1..], key)
  }

  /** What `Lookup` finds is the value of the first field with the key. */
  lemma {:induction false} LookupFindsFirst(fields: seq<Field>, key: string)
    requires Has(fields, key)
    ensures exists i :: 0 <= i < |fields| && fields[i] == Field(key, Lookup(fields, key).value)
                        && forall j :: 0 <= j < i ==> fields[j].key != key
  {
    if fields[0].key != key {
      HasTail(fields, key);
      LookupFindsFirst(fields[1..], key);
      var i :| 0 <= i < |fields| - 1 && fields[1..][i] == Field(key, Lookup(fields[1..], key).value)
               && forall j :: 0 <= j < i ==> fields[1..][j].key != key;
      assert fields[i + 1] == fields[1..][i];
      assert forall j :: 0 < j < i + 1 ==> fields[j] == fields[1..][j - 1];
    } else {
      assert fields[0] == Field(key, Lookup(fields, key).value);
    }
  }

  /** Lookup in a field followed by more fields. */
  lemma LookupCons(f: Field, rest: seq<Field>)
    ensures forall k :: Lookup([f] + rest, k) == if f.key == k then Some(f.value) else Lookup(rest, k)
  {
    assert ([f] + rest)[1..] == rest;
  }

  /** `d[key] = value`: overwrites the value in place when `key` is present,
      and appends a new last field otherwise. */
  function Put(fields: seq<Field>, key: string, value: Json): (r: seq<Field>)
    ensures Lookup(r, key) == Some(value)
    ensures forall k :: k != key ==> Lookup(r, k) == Lookup(fields, k)
    ensures Has(fields, key) ==> |r| == |fields|
    ensures Has(fields, key) ==> forall i :: 0 <= i < |r| ==> r[i].key == fields[i].key
    ensures !Has(fields, key) ==> r == fields + [Field(key, value)]
  {
    if |fields| == 0 then
      LookupCons(Field(key, value), []);
      [Field(key, value)]
    else
      var f := fields[0];
      var tail := fields[1..];
      assert fields == [f] + tail;
      LookupCons(f, tail);
      if f.key == key then
        LookupCons(Field(key, value), tail);
        [Field(key, value)] + tail
      else
        var rest := Put(tail, key, value);
        HasTail(fields, key);
        LookupCons(f, rest);
        [f] + rest
  }

  /** `d.pop(key)` with the popped value discarded: no field carries `key`
      afterwards. */
  function Remove(fields: seq<Field>, key: string): (r: seq<Field>)
    ensures Lookup(r, key) == None
    ensures forall k :: k != key ==> Lookup(r, k) == Lookup(fields, k)
  {
    if |fields| == 0 then []
    else
      var rest := Remove(fields[1..], key);
      if fields[0].key == key then rest
      else
        assert ([fields[0]] + rest)[1..] == rest;
        [fields[0]] + rest
  }

  /** Removing a key that is absent changes nothing. */
  lemma {:induction false} RemoveAbsent(fields: seq<Field>, key: string)
    requires !Has(fields, key)
    ensures Remove(fields, key) == fields
  {
    if |fields| > 0 {
      HasTail(fields, key);
      RemoveAbsent(fields[1..], key);
      assert fields == [fields[0]] + fields[1..];
    }
  }

  /** `pop` works field by field: the fields that stay keep their order. */
  lemma {:induction false} RemoveAppend(a: seq<Field>, b: seq<Field>, key: string)
    ensures Remove(a + b, key) == Remove(a, key) + Remove(b, key)
  {
    if |a| > 0 {
      assert (a + b)[1..] == a[1..] + b;
      RemoveAppend(a[1..], b, key);
    } else {
      assert a + b == b;
    }
  }

  /** Popping a key held by one field drops exactly that field. */
  lemma RemoveSingle(fields: seq<Field>, key: string, i: nat)
    requires i < |fields| && fields[i].key == key
    requires forall j :: 0 <= j < |fields| && j != i ==> fields[j].key != key
    ensures Remove(fields, key) == fields[..i] + fields[i + 1..]
  {
    var before, after := fields[..i], fields[i + 1..];
    assert !Has(before, key) by {
      forall j | 0 <= j < |before| ensures before[j].key != key {
        assert before[j] == fields[j];
      }
    }
    assert !Has(after, key) by {
      forall j | 0 <= j < |after| ensures after[j].key != key {
        assert after[j] == fields[i + 1 + j];
      }
    }
    assert fields == before + ([fields[i]] + after);
    RemoveAppend(before, [fields[i]] + after, key);
    RemoveAppend([fields[i]], after, key);
    assert Remove([fields[i]], key) == [] by {
      assert [fields[i]][1..] == [];
    }
    RemoveAbsent(before, key);
    RemoveAbsent(after, key);
  }

  /** Assigning the value a key already has changes nothing. */
  lemma {:induction false} PutExisting(fields: seq<Field>, key: string, value: Json)
    requires Lookup(fields, key) == Some(value)
    ensures Put(fields, key, value) == fields
  {
    if fields[0].key != key {
      PutExisting(fields[1..], key, value);
      assert fields == [fields[0]] + fields[1..];
    } else {
      assert fields == [Field(key, value)] + fields[1..];
    }
  }

  /** Decimal digits of `n`, most significant first, without leading zeros. */
  function Digits(n: nat): (r: string)
    ensures |r| >= 1
    ensures forall i :: 0 <= i < |r| ==> '0' <= r[i] <= '9'
    ensures r[0] == '0' <==> n == 0
    ensures n == 0 <==> r == "0"
    decreases n
  {
    var d := ['0' + (n % 10) as char];
    if n < 10 then d else Digits(n / 10) + d
  }

  /** The number a string of decimal digits denotes. */
  function DigitsValue(s: string): nat
    requires forall i :: 0 <= i < |s| ==> '0' <= s[i] <= '9'
  {
    if |s| == 0 then 0
    else DigitsValue(s[..|s| - 1]) * 10 + (s[|s| - 1] - '0') as nat
  }

  /** Reading the digits back gives the number. */
  lemma {:induction false} DigitsRoundTrip(n: nat)
    ensures DigitsValue(Digits(n)) == n
  {
    if n >= 10 {
      DigitsRoundTrip(n / 10);
      var s := Digits(n);
      assert s[..|s| - 1] == Digits(n / 10);
    }
  }

  /** `str(n)` for an integer. */
  function IntString(n: int): string {
    if n < 0 then "-" + Digits(-n) else Digits(n)
  }

  /** Lower-case hexadecimal digit. */
  function HexDigit(d: nat): char
    requires d < 16
  {
    if d < 10 then '0' + d as char else 'a' + (d - 10) as char
  }

  /** `\xhh` for a code point below 256. */
  function ByteEscape(c: char): string
    requires c as int < 256
  {
    ['\\', 'x', HexDigit(c as int / 16), HexDigit(c as int % 16)]
  }

  /** `\uhhhh` for a code point below 65536. */
  function WideEscape(c: char): string
    requires c as int < 65536
  {
    var n := c as int;
    ['\\', 'u', HexDigit(n / 4096), HexDigit(n / 256 % 16), HexDigit(n / 16 % 16), HexDigit(n % 16)]
  }

  /** How `repr` writes one character of a string quoted with `quote`. */
  function EscapeChar(c: char, quote: char): string {
    if c == '\\' || c == quote then ['\\', c]
    else if c == '\t' then "\\t"
    else if c == '\n' then "\\n"
    else if c == '\r' then "\\r"
    else if c < ' ' || ('\U{7F}' <= c <= '\U{A0}') || c == '\U{AD}' then ByteEscape(c)
    else if '\U{FF}' < c <= '\U{FFFF}' && IsSpace(c) then WideEscape(c)
    else [c]
  }

  function EscapeChars(s: string, quote: char): string {
    if |s| == 0 then "" else EscapeChar(s[0], quote) + EscapeChars(s[1..], quote)
  }

  /** `repr(s)` for a string: single quotes, unless the text holds a single
      quote and no double quote. */
  function QuoteString(s: string): string {
    var quote := if '\'' in s && '"' !in s then '"' else '\'';
    [quote] + EscapeChars(s, quote) + [quote]
  }

  /** `str(v)` of a scalar: `None`, `True`, `False`, digits, or the text. */
  function ScalarString(v: Json): string
    requires !v.JArray? && !v.JObject?
  {
    match v
    case JNull => "None"
    case JBool(b) => if b then "True" else "False"
    case JInt(n) => IntString(n)
    case JString(s) => s
  }

  /** `repr(v)`: how a value is written inside a printed list or dict. */
  function Repr(v: Json): string
    decreases v
  {
    match v
    case JString(s) => QuoteString(s)
    case JArray(items) =>
      "[" + Join(seq(|items|, i requires 0 <= i < |items| => Repr(items[i])), ", ") + "]"
    case JObject(fields) =>
      "{" + Join(seq(|fields|, i requires 0 <= i < |fields| =>
                   QuoteString(fields[i].key) + ": " + Repr(fields[i].value)), ", ") + "}"
    case _ => ScalarString(v)
  }

  /** `str(v)`: a string is itself, a list or dict is its `repr`. */
  function Str(v: Json): (r: string)
    ensures v.JString? ==> r == v.s
  {
    if v.JArray? || v.JObject? then Repr(v) else ScalarString(v)
  }
}
