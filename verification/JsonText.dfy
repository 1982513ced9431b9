/** Compact JSON text, and that its size in UTF-8 is the size the budgets work with. */
module JsonText {
  import opened Bytes
  import opened Json

  function HexDigit(n: nat): char
    requires n < 16
  {
    if n < 10 then (48 + n) as char else (87 + n) as char
  }

  /** A character inside a JSON string (section 7 of RFC 8259), short escapes where there are any. */
  function Escaped(c: char): (r: string)
    ensures r != []
  {
    var x := c as int;
    if x == 0x22 then ['\\', '\"']
    else if x == 0x5C then ['\\', '\\']
    else if x == 8 then ['\\', 'b']
    else if x == 9 then ['\\', 't']
    else if x == 10 then ['\\', 'n']
    else if x == 12 then ['\\', 'f']
    else if x == 13 then ['\\', 'r']
    else if x < 0x20 then ['\\', 'u', '0', '0', HexDigit(x / 16), HexDigit(x % 16)]
    else [c]
  }

  function EscapedAll(s: string): string { if s == [] then [] else Escaped(s[0]) + EscapedAll(s[1..]) }

  function Digits(n: nat): string {
    if n < 10 then [(48 + n) as char] else Digits(n / 10) + [(48 + n % 10) as char]
  }

  function Quoted(s: string): string { ['\"'] + (EscapedAll(s) + ['\"']) }

  function Text(j: Json): string
    decreases j, 1
  {
    match j
    case Null => "null"
    case Bool(b) => if b then "true" else "false"
    case Num(Unsigned(n)) => Digits(n)
    case Num(Printed(text)) => text
    case Str(s) => Quoted(s)
    case Arr(items) => ['['] + (ItemsText(items) + [']'])
    case Obj(fields) => ['{'] + (FieldsText(fields) + ['}'])
  }

  function ItemsText(items: seq<Json>): string
    decreases items, 0
  {
    if items == [] then []
    else if |items| == 1 then Text(items[0])
    else Text(items[0]) + ([','] + ItemsText(items[1..]))
  }

  function FieldText(field: Field): string
    decreases field, 0
  {
    Quoted(field.key) + ([':'] + Text(field.value))
  }

  function FieldsText(fields: seq<Field>): string
    decreases fields, 0
  {
    if fields == [] then []
    else if |fields| == 1 then FieldText(fields[0])
    else FieldText(fields[0]) + ([','] + FieldsText(fields[1..]))
  }

  /** Printed numbers are ASCII. */
  predicate AsciiNumbers(j: Json)
    decreases j, 1
  {
    match j
    case Num(Printed(text)) => TextBytes(text) == |text|
    case Arr(items) => forall item :: item in items ==> AsciiNumbers(item)
    case Obj(fields) => forall field :: field in fields ==> AsciiNumbers(field.value)
    case _ => true
  }

  lemma OneByte(c: char)
    requires c as int < 0x80
    ensures TextBytes([c]) == 1
  {
    assert [c][1..] == [];
  }

  lemma EscapedSize(c: char)
    ensures TextBytes(Escaped(c)) == EscapedBytes(c)
  {
    var r := Escaped(c);
    if |r| == 1 {
      assert r[1..] == [];
    } else if |r| == 2 {
      TwoBytes(r);
    } else {
      assert r == r[..2] + (r[2..4] + r[4..]);
      TextAppend(r[..2], r[2..4] + r[4..]);
      TextAppend(r[2..4], r[4..]);
      TwoBytes(r[..2]);
      TwoBytes(r[2..4]);
      TwoBytes(r[4..]);
    }
  }

  lemma TwoBytes(s: string)
    requires |s| == 2 && s[0] as int < 0x80 && s[1] as int < 0x80
    ensures TextBytes(s) == 2
  {
    hide TextBytes;
    assert s == [s[0]] + [s[1]];
    OneByte(s[0]);
    OneByte(s[1]);
    TextAppend([s[0]], [s[1]]);
  }

  lemma {:induction false} EscapedAllSize(s: string)
    ensures TextBytes(EscapedAll(s)) == EscapedText(s)
  {
    hide Escaped, EscapedBytes;
    if s != [] {
      EscapedAllSize(s[1..]);
      EscapedSize(s[0]);
      TextAppend(Escaped(s[0]), EscapedAll(s[1..]));
    }
  }

  lemma QuotedSize(s: string)
    ensures TextBytes(Quoted(s)) == TextSize(s)
  {
    hide EscapedAll, EscapedText, TextBytes;
    EscapedAllSize(s);
    OneByte('\"');
    TextAppend(['\"'], EscapedAll(s) + ['\"']);
    TextAppend(EscapedAll(s), ['\"']);
  }

  lemma {:induction false} DigitsSize(n: nat)
    ensures TextBytes(Digits(n)) == DecimalDigits(n)
  {
    OneByte((48 + n % 10) as char);
    if n >= 10 {
      DigitsSize(n / 10);
      TextAppend(Digits(n / 10), [(48 + n % 10) as char]);
    }
  }

  lemma WordSizes()
    ensures TextBytes("null") == 4 && TextBytes("true") == 4 && TextBytes("false") == 5
  {
    assert "null" == "nu" + "ll" && "true" == "tr" + "ue" && "false" == "fa" + ("ls" + ['e']);
    TextAppend("nu", "ll");
    TextAppend("tr", "ue");
    TextAppend("fa", "ls" + ['e']);
    TextAppend("ls", ['e']);
    TwoBytes("nu");
    TwoBytes("ll");
    TwoBytes("tr");
    TwoBytes("ue");
    TwoBytes("fa");
    TwoBytes("ls");
    OneByte('e');
  }

  lemma BracketSize(open: char, inner: string, close: char)
    requires open as int < 0x80 && close as int < 0x80
    ensures TextBytes([open] + (inner + [close])) == TextBytes(inner) + 2
  {
    hide TextBytes;
    OneByte(open);
    OneByte(close);
    TextAppend([open], inner + [close]);
    TextAppend(inner, [close]);
  }

  lemma JoinSize(first: string, mark: char, rest: string)
    requires mark as int < 0x80
    ensures TextBytes(first + ([mark] + rest)) == TextBytes(first) + 1 + TextBytes(rest)
  {
    hide TextBytes;
    OneByte(mark);
    TextAppend(first, [mark] + rest);
    TextAppend([mark], rest);
  }

  /** The size of a value is the number of bytes of its compact text. */
  lemma {:induction false} SizeIsTextSize(j: Json)
    requires AsciiNumbers(j)
    ensures TextBytes(Text(j)) == Size(j)
    decreases j, 1
  {
    hide TextBytes, Quoted, TextSize;
    match j
    case Null => WordSizes();
    case Bool(_) => WordSizes();
    case Num(Unsigned(n)) => DigitsSize(n);
    case Num(Printed(_)) =>
    case Str(s) => QuotedSize(s);
    case Arr(items) =>
      ItemsTextSize(items);
      BracketSize('[', ItemsText(items), ']');
    case Obj(fields) =>
      FieldsTextSize(fields);
      BracketSize('{', FieldsText(fields), '}');
  }

  lemma {:induction false} ItemsTextSize(items: seq<Json>)
    requires forall item :: item in items ==> AsciiNumbers(item)
    ensures TextBytes(ItemsText(items)) == ItemsSize(items) + Commas(|items|)
    decreases items, 0
  {
    hide Text, Size, AsciiNumbers;
    if items != [] {
      SizeIsTextSize(items[0]);
      ItemsTextSize(items[1..]);
      JoinSize(Text(items[0]), ',', ItemsText(items[1..]));
    }
  }

  lemma {:induction false} FieldsTextSize(fields: seq<Field>)
    requires forall field :: field in fields ==> AsciiNumbers(field.value)
    ensures TextBytes(FieldsText(fields)) == FieldsSize(fields) + Commas(|fields|)
    decreases fields, 0
  {
    hide Text, Size, AsciiNumbers, Quoted, TextSize;
    if fields != [] {
      SizeIsTextSize(fields[0].value);
      QuotedSize(fields[0].key);
      JoinSize(Quoted(fields[0].key), ':', Text(fields[0].value));
      FieldsTextSize(fields[1..]);
      JoinSize(FieldText(fields[0]), ',', FieldsText(fields[1..]));
    }
  }
}
