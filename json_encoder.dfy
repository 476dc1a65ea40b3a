/** `JSONEncoder`: the encoder `generate_meal_plan` hands to `json.dumps` so that
    produce documents holding database ids can be written into the prompt. */
module JsonEncoder {
  import opened Wrappers
  import opened Values

  /** A value `json.dumps` writes without help: no ObjectId and no other object
      anywhere inside it. */
  predicate IsJson(v: Value) {
    match v
    case VList(items) => forall i :: 0 <= i < |items| ==> IsJson(items[i])
    case VDict(entries) => forall i :: 0 <= i < |entries| ==> IsJson(entries[i].1)
    case VObjectId(_) => false
    case VOpaque(_, _, _) => false
    case _ => true
  }

  /** `JSONEncoder.default(o)`: an ObjectId becomes its text; any other object
      is left to the base class, which raises `TypeError`. */
  function Default(o: Value): Outcome<Value> {
    match o
    case VObjectId(id) => Returned(VStr(Hex(id)))
    case _ => Raised(Refusal(TypeName(o)))
  }

  /** A value `json.dumps` with `JSONEncoder` can write: no object other than
      an ObjectId anywhere inside it. */
  predicate Writable(v: Value) {
    match v
    case VList(items) => forall i :: 0 <= i < |items| ==> Writable(items[i])
    case VDict(entries) => forall i :: 0 <= i < |entries| ==> Writable(entries[i].1)
    case VOpaque(_, _, _) => false
    case _ => true
  }

  /** The value with every ObjectId inside it replaced by its text, keys and
      order unchanged: what the encoder is meant to write. */
  function Replaced(v: Value): Value
    decreases v
  {
    match v
    case VList(items) => VList(seq(|items|, i requires 0 <= i < |items| => Replaced(items[i])))
    case VDict(entries) => VDict(seq(|entries|, i requires 0 <= i < |entries| => (entries[i].0, Replaced(entries[i].1))))
    case VObjectId(id) => VStr(Hex(id))
    case _ => v
  }

  /** The type of the first object other than an ObjectId that the encoder
      meets, going depth first and left to right, if there is one: the
      object whose refusal `json.dumps` reports. */
  function FirstRefused(v: Value): Option<string>
    decreases v
  {
    match v
    case VList(_) => FirstRefusedItems(v, 0)
    case VDict(_) => FirstRefusedEntries(v, 0)
    case VOpaque(name, _, _) => Some(name)
    case _ => None
  }

  /** The first refused object among the items of the list `l` from index `i` on. */
  function FirstRefusedItems(l: Value, i: nat): Option<string>
    requires l.VList? && i <= |l.items|
    decreases l, |l.items| - i
  {
    if i == |l.items| then None
    else if FirstRefused(l.items[i]).Some? then FirstRefused(l.items[i])
    else FirstRefusedItems(l, i + 1)
  }

  /** The first refused object among the values of the dictionary `d` from index `i` on. */
  function FirstRefusedEntries(d: Value, i: nat): Option<string>
    requires d.VDict? && i <= |d.entries|
    decreases d, |d.entries| - i
  {
    if i == |d.entries| then None
    else if FirstRefused(d.entries[i].1).Some? then FirstRefused(d.entries[i].1)
    else FirstRefusedEntries(d, i + 1)
  }

  /** The `TypeError` the base encoder raises for an object of type `name`. */
  function Refusal(name: string): string {
    "Object of type " + name + " is not JSON serializable"
  }

  /** What `json.dumps(v, cls=JSONEncoder)` writes, as a value: every object it
      cannot write itself is replaced by what `Default` makes of it, in the
      order the encoder meets them, and the first refusal is the exception,
      naming the type of the first refused object. */
  function Encodable(v: Value): (r: Outcome<Value>)
    ensures r.Returned? <==> Writable(v)
    ensures r.Returned? ==> r.value == Replaced(v) && IsJson(r.value)
    ensures r.Raised? <==> FirstRefused(v).Some?
    ensures r.Raised? ==> r.message == Refusal(FirstRefused(v).value)
    ensures IsJson(v) ==> r == Returned(v)
    decreases v
  {
    match v
    case VList(items) =>
      var xs :- EncodableItems(v, 0);
      assert xs == Replaced(v).items;
      Returned(VList(xs))
    case VDict(entries) =>
      var es :- EncodableEntries(v, 0);
      assert es == Replaced(v).entries;
      Returned(VDict(es))
    case VObjectId(_) => Default(v)
    case VOpaque(_, _, _) => Default(v)
    case _ => Returned(v)
  }

  /** The items of the list `l` from index `i` on, encoded one after the other. */
  function EncodableItems(l: Value, i: nat): (r: Outcome<seq<Value>>)
    requires l.VList? && i <= |l.items|
    ensures r.Returned? <==> forall k :: i <= k < |l.items| ==> Writable(l.items[k])
    ensures r.Returned? ==> (|r.value| == |l.items| - i
      && forall k :: 0 <= k < |r.value| ==> r.value[k] == Replaced(l.items[i + k]) && IsJson(r.value[k]))
    ensures r.Raised? <==> FirstRefusedItems(l, i).Some?
    ensures r.Raised? ==> r.message == Refusal(FirstRefusedItems(l, i).value)
    ensures (forall k :: i <= k < |l.items| ==> IsJson(l.items[k])) ==> r == Returned(l.items[i..])
    decreases l, |l.items| - i
  {
    if i == |l.items| then Returned([])
    else
      var x :- Encodable(l.items[i]);
      var xs :- EncodableItems(l, i + 1);
      assert l.items[i..] == [l.items[i]] + l.items[i + 1..];
      Returned([x] + xs)
  }

  /** The entries of the dictionary `d` from index `i` on, their values encoded
      one after the other. */
  function EncodableEntries(d: Value, i: nat): (r: Outcome<seq<(string, Value)>>)
    requires d.VDict? && i <= |d.entries|
    ensures r.Returned? <==> forall k :: i <= k < |d.entries| ==> Writable(d.entries[k].1)
    ensures r.Returned? ==> (|r.value| == |d.entries| - i
      && forall k :: 0 <= k < |r.value| ==>
           r.value[k] == (d.entries[i + k].0, Replaced(d.entries[i + k].1)) && IsJson(r.value[k].1))
    ensures r.Raised? <==> FirstRefusedEntries(d, i).Some?
    ensures r.Raised? ==> r.message == Refusal(FirstRefusedEntries(d, i).value)
    ensures (forall k :: i <= k < |d.entries| ==> IsJson(d.entries[k].1)) ==> r == Returned(d.entries[i..])
    decreases d, |d.entries| - i
  {
    if i == |d.entries| then Returned([])
    else
      var x :- Encodable(d.entries[i].1);
      var es :- EncodableEntries(d, i + 1);
      assert d.entries[i..] == [d.entries[i]] + d.entries[i + 1..];
      Returned([(d.entries[i].0, x)] + es)
  }

  /** A value that is already plain JSON is its own replacement. */
  lemma ReplacedPlain(v: Value)
    requires IsJson(v)
    ensures Replaced(v) == v
  {
    var r := Encodable(v);
  }

  /** An ObjectId is written as 24 lower-case hexadecimal digits from which the
      id can be read back. */
  lemma DefaultWritesObjectId(id: seq<byte>)
    requires |id| == 12
    ensures Default(VObjectId(id)).Returned?
    ensures var t := Default(VObjectId(id)).value;
      && t.VStr? && |t.s| == 24
      && (forall k :: 0 <= k < |t.s| ==> IsHexDigit(t.s[k]))
      && Unhex(t.s) == id
  {
    HexRoundTrip(id);
  }

  /** In a list, `json.dumps` reports the first object it cannot write: items
      before it that it can write do not matter, and neither does anything
      after it. */
  lemma RefusalNamesFirstObject(before: seq<Value>, o: Value, after: seq<Value>)
    requires forall k :: 0 <= k < |before| ==> Writable(before[k])
    requires o.VOpaque?
    ensures Encodable(VList(before + [o] + after)) == Raised(Refusal(o.typeName))
  {
    var l := VList(before + [o] + after);
    assert l.items[|before|] == o;
    var i := |before|;
    while i > 0
      invariant 0 <= i <= |before|
      invariant FirstRefusedItems(l, i) == Some(o.typeName)
    {
      i := i - 1;
      assert l.items[i] == before[i];
      var r := Encodable(before[i]);
    }
  }
}
