/** The Python values the core passes around, with the parts of `str()` and
    `type()` the core relies on. */
module Values {
  import opened Wrappers

  type byte = x: int | 0 <= x < 256

  /** A Python value: what `json.loads` produces, and what a user profile or a
      produce document read from the database can hold. Dictionaries keep their
      insertion order, as Python's do. */
  datatype Value =
    | VNone
    | VBool(b: bool)
    | VInt(i: int)
    | VFloat(repr: string)                    // a float, by its Python `repr`
    | VStr(s: string)
    | VList(items: seq<Value>)
    | VDict(entries: seq<(string, Value)>)
    | VObjectId(id: seq<byte>)                // a bson ObjectId: 12 bytes
    | VOpaque(typeName: string, typeFullName: string, text: string)
      // any other object, one that cannot be iterated (a datetime, ...): the
      // `__name__` of its type, the name the interpreter gives its type (module
      // qualified for a type built in C, "datetime.datetime"), and `str()` of it

  /** `d.get(key)` on a dictionary's entries: the value stored under `key`. */
  function Lookup(entries: seq<(string, Value)>, key: string): (r: Option<Value>)
    ensures r.None? <==> forall i :: 0 <= i < |entries| ==> entries[i].0 != key
    ensures r.Some? ==> exists i :: 0 <= i < |entries| && entries[i] == (key, r.value)
  {
    if |entries| == 0 then None
    else if entries[0].0 == key then Some(entries[0].1)
    else
      var r := Lookup(entries[1..], key);
      assert forall i :: 1 <= i < |entries| ==> entries[i] == entries[1..][i - 1];
      r
  }

  /** `isinstance(v, dict) and key in v` */
  predicate HasKey(v: Value, key: string) {
    v.VDict? && Lookup(v.entries, key).Some?
  }

  /** `type(v).__name__` */
  function TypeName(v: Value): string {
    match v
    case VNone => "NoneType"
    case VBool(_) => "bool"
    case VInt(_) => "int"
    case VFloat(_) => "float"
    case VStr(_) => "str"
    case VList(_) => "list"
    case VDict(_) => "dict"
    case VObjectId(_) => "ObjectId"
    case VOpaque(name, _, _) => name
  }

  /** The name of `type(v)` as CPython's own error messages print it (its
      `tp_name`): `__name__` for builtins and for classes written in Python,
      the module-qualified name for a type implemented in C inside a module. */
  function TypeFullName(v: Value): string {
    match v
    case VOpaque(_, fullName, _) => fullName
    case _ => TypeName(v)
  }

  /** `str(v)`. The text of a list or a dictionary is Python's `repr` of it,
      supplied by `reprOf`. */
  function Str(v: Value, reprOf: Value -> string): string {
    match v
    case VNone => "None"
    case VBool(b) => if b then "True" else "False"
    case VInt(i) => IntToString(i)
    case VFloat(r) => r
    case VStr(s) => s
    case VObjectId(id) => Hex(id)
    case VOpaque(_, _, text) => text
    case VList(_) => reprOf(v)
    case VDict(_) => reprOf(v)
  }

  predicate IsDigit(c: char) {
    '0' <= c <= '9'
  }

  /** `str(n)` for a natural number: its decimal digits, without leading zeros. */
  function NatToString(n: nat): (r: string)
    ensures |r| >= 1 && forall k :: 0 <= k < |r| ==> IsDigit(r[k])
    ensures r[0] == '0' ==> n == 0
  {
    if n < 10 then [('0' as int + n) as char]
    else NatToString(n / 10) + [('0' as int + n % 10) as char]
  }

  /** `str(i)` for an integer. */
  function IntToString(i: int): string {
    if i < 0 then "-" + NatToString(-i) else NatToString(i)
  }

  /** The number a string of decimal digits denotes (`int(s)`). */
  function DecimalValue(s: string): nat
    requires forall k :: 0 <= k < |s| ==> IsDigit(s[k])
  {
    if s == [] then 0
    else
      assert IsDigit(s[|s| - 1]);
      DecimalValue(s[..|s| - 1]) * 10 + (s[|s| - 1] as int - '0' as int)
  }

  /** Reading back the decimal digits of a number gives the number. */
  lemma {:induction false} NatToStringRoundTrip(n: nat)
    ensures DecimalValue(NatToString(n)) == n
  {
    if n >= 10 {
      NatToStringRoundTrip(n / 10);
      var r := NatToString(n);
      assert r[..|r| - 1] == NatToString(n / 10);
    }
  }

  predicate IsHexDigit(c: char) {
    ('0' <= c <= '9') || ('a' <= c <= 'f')
  }

  /** The lower-case hexadecimal digit for `d`. */
  function HexDigit(d: nat): (c: char)
    requires d < 16
    ensures IsHexDigit(c)
  {
    if d < 10 then ('0' as int + d) as char else ('a' as int + d - 10) as char
  }

  /** The value of a lower-case hexadecimal digit. */
  function HexValue(c: char): (d: nat)
    requires IsHexDigit(c)
    ensures d < 16 && HexDigit(d) == c
  {
    if '0' <= c <= '9' then c as int - '0' as int else c as int - 'a' as int + 10
  }

  /** Lower-case hexadecimal text of some bytes, two digits per byte: `str()` of
      an ObjectId. */
  function Hex(bytes: seq<byte>): (r: string)
    ensures |r| == 2 * |bytes|
    ensures forall k :: 0 <= k < |r| ==> IsHexDigit(r[k])
  {
    if bytes == [] then ""
    else
      var b := bytes[0];
      [HexDigit(b / 16), HexDigit(b % 16)] + Hex(bytes[1..])
  }

  /** The bytes a lower-case hexadecimal text denotes (`ObjectId(s)`). */
  function Unhex(s: string): seq<byte>
    requires |s| % 2 == 0 && forall k :: 0 <= k < |s| ==> IsHexDigit(s[k])
  {
    if s == [] then []
    else [HexValue(s[0]) * 16 + HexValue(s[1])] + Unhex(s[2..])
  }

  /** The text of an ObjectId determines it: decoding the hexadecimal gives back the bytes. */
  lemma {:induction false} HexRoundTrip(bytes: seq<byte>)
    ensures Unhex(Hex(bytes)) == bytes
  {
    if bytes != [] {
      HexRoundTrip(bytes[1..]);
      var r := Hex(bytes);
      assert r[2..] == Hex(bytes[1..]);
      ByteDigits(bytes[0], r[0], r[1]);
    }
  }

  /** The two digits of a byte give back the byte. */
  lemma ByteDigits(b: byte, hi: char, lo: char)
    requires hi == HexDigit(b / 16) && lo == HexDigit(b % 16)
    ensures HexValue(hi) * 16 + HexValue(lo) == b
  {
    assert HexValue(hi) == b / 16;
    assert HexValue(lo) == b % 16;
  }
}
