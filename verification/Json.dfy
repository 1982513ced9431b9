/** JSON values, the size of their compact serialization and the limited counter that measures it. */
module Json {
  import opened Bytes

  /** Numbers that read back as unsigned, and the printed form of all others. */
  datatype Number = Unsigned(n: nat) | Printed(text: string)

  /** Objects list their fields in key order, as an ordered map does. */
  datatype Json =
    | Null
    | Bool(b: bool)
    | Num(number: Number)
    | Str(text: string)
    | Arr(items: seq<Json>)
    | Obj(fields: seq<Field>)
  datatype Field = Field(key: string, value: Json)

  // ---- sizes ----

  /** Bytes of one character in UTF-8. */
  function CharBytes(c: char): (r: nat)
    ensures 1 <= r <= 4
  {
    var x := c as int;
    if x < 0x80 then 1 else if x < 0x800 then 2 else if x < 0x1_0000 then 3 else 4
  }

  /** Bytes of one character inside a JSON string (section 7 of RFC 8259). */
  function EscapedBytes(c: char): (r: nat)
    ensures 1 <= r <= 6 * CharBytes(c) && r <= 6
  {
    var x := c as int;
    if x == 0x22 || x == 0x5C || x == 8 || x == 9 || x == 10 || x == 12 || x == 13 then 2
    else if x < 0x20 then 6
    else CharBytes(c)
  }

  function TextBytes(s: string): nat {
    if s == [] then 0 else CharBytes(s[0]) + TextBytes(s[1..])
  }

  function EscapedText(s: string): nat {
    if s == [] then 0 else EscapedBytes(s[0]) + EscapedText(s[1..])
  }

  function TextSize(s: string): nat { 2 + EscapedText(s) }

  function DecimalDigits(n: nat): (r: nat)
    ensures r > 0
  {
    if n < 10 then 1 else 1 + DecimalDigits(n / 10)
  }

  function NumberSize(x: Number): nat {
    match x case Unsigned(n) => DecimalDigits(n) case Printed(text) => |text|
  }

  function Size(j: Json): nat
    decreases j, 1
  {
    match j
    case Null => 4
    case Bool(b) => if b then 4 else 5
    case Num(x) => NumberSize(x)
    case Str(s) => TextSize(s)
    case Arr(items) => 2 + ItemsSize(items) + Commas(|items|)
    case Obj(fields) => 2 + FieldsSize(fields) + Commas(|fields|)
  }

  function Commas(n: nat): nat { if n == 0 then 0 else n - 1 }

  function ItemsSize(items: seq<Json>): nat
    decreases items, 0
  {
    if items == [] then 0 else Size(items[0]) + ItemsSize(items[1..])
  }

  function FieldsSize(fields: seq<Field>): nat
    decreases fields, 0
  {
    if fields == [] then 0
    else TextSize(fields[0].key) + 1 + Size(fields[0].value) + FieldsSize(fields[1..])
  }

  function ArraySize(items: seq<Json>): nat { 2 + ItemsSize(items) + Commas(|items|) }

  // ---- access ----

  predicate Less(a: string, b: string) {
    if b == [] then false
    else if a == [] then true
    else if a[0] == b[0] then Less(a[1..], b[1..])
    else a[0] < b[0]
  }

  function Find(fields: seq<Field>, key: string): Option<Json> {
    if fields == [] then None
    else if fields[0].key == key then Some(fields[0].value)
    else Find(fields[1..], key)
  }

  /** `Value::get`: a field of an object, nothing for any other value. */
  function Get(j: Json, key: string): Option<Json> {
    if j.Obj? then Find(j.fields, key) else None
  }

  function Insert(fields: seq<Field>, key: string, value: Json): seq<Field> {
    if fields == [] then [Field(key, value)]
    else if fields[0].key == key then [Field(key, value)] + fields[1..]
    else if Less(key, fields[0].key) then [Field(key, value)] + fields
    else [fields[0]] + Insert(fields[1..], key, value)
  }

  function Remove(fields: seq<Field>, key: string): seq<Field> {
    if fields == [] then []
    else if fields[0].key == key then fields[1..]
    else [fields[0]] + Remove(fields[1..], key)
  }

  /** The object a literal with these entries denotes. */
  function Object(entries: seq<Field>): seq<Field> {
    if entries == [] then []
    else Insert(Object(entries[..|entries| - 1]), entries[|entries| - 1].key, entries[|entries| - 1].value)
  }

  function AsStr(j: Option<Json>): Option<string> {
    if j.Some? && j.value.Str? then Some(j.value.text) else None
  }

  function AsNat(j: Option<Json>): Option<nat> {
    if j.Some? && j.value.Num? && j.value.number.Unsigned? then Some(j.value.number.n) else None
  }

  function AsItems(j: Option<Json>): Option<seq<Json>> {
    if j.Some? && j.value.Arr? then Some(j.value.items) else None
  }

  function Unsigned64(n: nat): Json { Num(Unsigned(n)) }

  // ---- size laws ----

  lemma {:induction false} TextSizeBound(s: string)
    ensures EscapedText(s) <= 6 * |s| && EscapedText(s) <= 6 * TextBytes(s)
    ensures |s| <= TextBytes(s) && |s| <= EscapedText(s)
  {
    if s != [] { TextSizeBound(s[1..]); }
  }

  lemma {:induction false} TextAppend(a: string, b: string)
    ensures EscapedText(a + b) == EscapedText(a) + EscapedText(b)
    ensures TextBytes(a + b) == TextBytes(a) + TextBytes(b)
  {
    if a == [] {
      assert a + b == b;
    } else {
      assert (a + b)[1..] == a[1..] + b;
      TextAppend(a[1..], b);
    }
  }

  lemma {:induction false} ItemsAppend(a: seq<Json>, b: seq<Json>)
    ensures ItemsSize(a + b) == ItemsSize(a) + ItemsSize(b)
  {
    if a == [] {
      assert a + b == b;
    } else {
      assert (a + b)[1..] == a[1..] + b;
      ItemsAppend(a[1..], b);
    }
  }

  /** Replacing one element changes the array's size by exactly the difference of theirs. */
  lemma ArrayUpdate(items: seq<Json>, i: nat, value: Json)
    requires i < |items|
    ensures Size(items[i]) <= ItemsSize(items)
    ensures ArraySize(items[i := value]) == ArraySize(items) - Size(items[i]) + Size(value)
  {
    hide Size;
    assert items == items[..i] + ([items[i]] + items[i + 1..]);
    assert items[i := value] == items[..i] + ([value] + items[i + 1..]);
    ItemsAppend(items[..i], [items[i]] + items[i + 1..]);
    ItemsAppend(items[..i], [value] + items[i + 1..]);
  }

  lemma {:induction false} ItemsBound(items: seq<Json>, bound: nat)
    requires forall i :: 0 <= i < |items| ==> Size(items[i]) <= bound
    ensures ItemsSize(items) <= |items| * bound
  {
    hide Size;
    if items != [] {
      ItemsBound(items[1..], bound);
      assert Size(items[0]) <= bound;
      assert |items| * bound == bound + (|items| - 1) * bound;
    }
  }

  function EntrySize(key: string, value: Json): nat { TextSize(key) + 1 + Size(value) }

  lemma {:induction false} InsertSize(fields: seq<Field>, key: string, value: Json)
    ensures FieldsSize(Insert(fields, key, value)) <= FieldsSize(fields) + EntrySize(key, value)
    ensures |Insert(fields, key, value)| <= |fields| + 1
  {
    hide Size, TextSize, Less;
    if fields != [] && fields[0].key != key && !Less(key, fields[0].key) {
      InsertSize(fields[1..], key, value);
    }
  }

  lemma {:induction false} FindInsert(fields: seq<Field>, key: string, value: Json, other: string)
    ensures Find(Insert(fields, key, value), other) == if other == key then Some(value) else Find(fields, other)
  {
    hide Less;
    if fields != [] && fields[0].key != key && !Less(key, fields[0].key) {
      FindInsert(fields[1..], key, value, other);
    }
  }

  /** A literal's field is the last entry with its key. */
  lemma {:induction false} ObjectFinds(entries: seq<Field>, i: nat)
    requires i < |entries| && forall k :: i < k < |entries| ==> entries[k].key != entries[i].key
    ensures Find(Object(entries), entries[i].key) == Some(entries[i].value)
  {
    hide Find, Insert;
    var init, last := entries[..|entries| - 1], entries[|entries| - 1];
    FindInsert(Object(init), last.key, last.value, entries[i].key);
    if i < |init| {
      assert init[i] == entries[i];
      ObjectFinds(init, i);
    }
  }

  lemma {:induction false} FindSize(fields: seq<Field>, key: string)
    requires Find(fields, key).Some?
    ensures Size(Find(fields, key).value) < Size(Obj(fields))
  {
    hide TextSize;
    if fields[0].key != key { FindSize(fields[1..], key); }
  }

  const U64_DIGITS: nat := 20

  lemma {:induction false} DigitsBound(n: nat, digits: nat)
    requires digits > 0 && n < Pow10(digits)
    ensures DecimalDigits(n) <= digits
  {
    if n >= 10 { DigitsBound(n / 10, digits - 1); }
  }

  lemma Unsigned64Size(n: u64)
    ensures Size(Unsigned64(n)) <= U64_DIGITS
  {
    assert Pow10(4) == 10000;
    assert Pow10(8) == 10000 * Pow10(4);
    assert Pow10(12) == 10000 * Pow10(8);
    assert Pow10(16) == 10000 * Pow10(12);
    assert Pow10(20) == 10000 * Pow10(16);
    DigitsBound(n, U64_DIGITS);
  }

  // ---- measuring with a limit ----

  const USIZE_MAX: nat := 0xFFFF_FFFF_FFFF_FFFF

  function Sum(xs: seq<nat>): nat { if xs == [] then 0 else xs[0] + Sum(xs[1..]) }

  function SaturatingAdd(a: nat, b: nat): nat { Min(a + b, USIZE_MAX) }

  class LimitedCounter {
    var bytes: nat
    const limit: nat

    constructor (limit: nat)
      ensures bytes == 0 && this.limit == limit
    {
      bytes := 0;
      this.limit := limit;
    }

    method Write(length: nat) returns (ok: bool)
      modifies this
      ensures ok == (SaturatingAdd(old(bytes), length) <= limit)
      ensures bytes == if ok then SaturatingAdd(old(bytes), length) else old(bytes)
    {
      var next := SaturatingAdd(bytes, length);
      if next > limit { return false; }
      bytes := next;
      ok := true;
    }
  }

  /**
   Counting a serialization, in whatever pieces it is written, yields its size exactly when the
   size is within the limit.
   */
  method CountWrites(chunks: seq<nat>, limit: nat) returns (size: Option<nat>)
    requires limit < USIZE_MAX
    ensures size == if Sum(chunks) <= limit then Some(Sum(chunks)) else None
  {
    var counter := new LimitedCounter(limit);
    for i := 0 to |chunks|
      invariant counter.limit == limit && counter.bytes <= limit
      invariant counter.bytes + Sum(chunks[i..]) == Sum(chunks)
    {
      var ok := counter.Write(chunks[i]);
      assert chunks[i..][1..] == chunks[i + 1..];
      if !ok { return None; }
    }
    size := Some(counter.bytes);
  }

  /** What measuring a value with a limit returns. */
  function SizeWithin(j: Json, limit: nat): Option<nat> {
    if Size(j) <= limit then Some(Size(j)) else None
  }

  method ArraySizeWithin(values: seq<Json>, limit: nat) returns (size: Option<nat>)
    ensures size == if ArraySize(values) <= limit || values == [] then Some(ArraySize(values)) else None
  {
    hide Size;
    var bytes := 2;
    for i := 0 to |values|
      invariant bytes == 2 + ItemsSize(values[..i]) + Commas(i)
      invariant bytes <= limit || i == 0
    {
      ItemsAppend(values[..i], [values[i]]);
      assert values[..i + 1] == values[..i] + [values[i]];
      ItemsAppend(values[..i + 1], values[i + 1..]);
      assert values == values[..i + 1] + values[i + 1..];
      if i > 0 { bytes := bytes + 1; }
      var element := SizeWithin(values[i], Max(0, limit - bytes));
      if element.None? { return None; }
      bytes := bytes + element.value;
      if bytes > limit { return None; }
    }
    assert values[..|values|] == values;
    size := Some(bytes);
  }

  // ---- bounded strings ----

  const ELLIPSIS: string := ['\U{2026}']

  /** Characters of the longest prefix that takes at most `budget` bytes. */
  function PrefixChars(s: string, budget: nat): (r: nat)
    ensures r <= |s|
  {
    if s == [] || CharBytes(s[0]) > budget then 0 else 1 + PrefixChars(s[1..], budget - CharBytes(s[0]))
  }

  function BoundedString(input: string, limit: nat): Option<string> {
    if TextSize(input) <= limit then Some(input)
    else if limit <= 2 then None
    else
      var end := PrefixChars(input, Min(TextBytes(input), Max(0, limit - 5) / 6));
      var bounded := input[..end] + (if end < |input| then ELLIPSIS else []);
      if TextSize(bounded) <= limit then Some(bounded) else None
  }

  lemma {:induction false} PrefixFits(s: string, budget: nat)
    ensures TextBytes(s[..PrefixChars(s, budget)]) <= budget
    ensures PrefixChars(s, budget) == |s| <==> TextBytes(s) <= budget
  {
    if s != [] && CharBytes(s[0]) <= budget {
      PrefixFits(s[1..], budget - CharBytes(s[0]));
      var n := PrefixChars(s, budget);
      assert s[..n][1..] == s[1..][..n - 1];
    }
  }

  /**
   The bounded form is the input when it fits and otherwise a whole-character prefix with an
   ellipsis; it is within the limit, and it exists exactly when the input fits or the limit has
   room for the quotes and the ellipsis.
   */
  lemma BoundedStringSpec(input: string, limit: nat)
    ensures BoundedString(input, limit).Some? <==> TextSize(input) <= limit || limit >= 5
    ensures BoundedString(input, limit).Some? ==>
              var bounded := BoundedString(input, limit).value;
              && TextSize(bounded) <= limit
              && (if TextSize(input) <= limit then bounded == input
                  else exists n :: 0 <= n < |input| && bounded == input[..n] + ELLIPSIS)
    ensures BoundedString(input, limit).Some? ==>
              BoundedString(BoundedString(input, limit).value, limit) == BoundedString(input, limit)
  {
    if TextSize(input) > limit && limit > 2 {
      var budget := Min(TextBytes(input), Max(0, limit - 5) / 6);
      var end := PrefixChars(input, budget);
      PrefixFits(input, budget);
      TextSizeBound(input);
      TextSizeBound(input[..end]);
      TextAppend(input[..end], ELLIPSIS);
      EllipsisSize();
      if limit >= 5 {
        assert 6 * budget <= limit - 5;
        assert end < |input|;
      }
    }
  }

  lemma EllipsisSize()
    ensures EscapedText(ELLIPSIS) == 3 && |ELLIPSIS| == 1
  {
    assert ELLIPSIS[1..] == [];
  }
}
