/** Canonical JSON (RFC 8785): the writer, as it appends to its output, and a
    reader of JSON text that takes the output back. Characters are Unicode
    scalar values, as in the source's strings. */
module CanonicalJson {
  import opened Wrappers

  datatype Json =
    | Null
    | Bool(b: bool)
    | Number(n: int)
    | Str(s: string)
    | Array(items: seq<Json>)
    | Object(members: seq<Member>)

  datatype Member = Member(key: string, value: Json)

  // ---------------------------------------------------------------- key order

  /** The UTF-16 code units of a character: one, or a surrogate pair. */
  function Units(c: char): seq<int> {
    var n := c as int;
    if n < 0x10000 then [n] else [0xD800 + (n - 0x10000) / 0x400, 0xDC00 + (n - 0x10000) % 0x400]
  }

  function Utf16(s: string): seq<int> {
    if s == "" then [] else Units(s[0]) + Utf16(s[1..])
  }

  predicate Before(a: seq<int>, b: seq<int>) {
    b != [] && (a == [] || a[0] < b[0] || (a[0] == b[0] && Before(a[1..], b[1..])))
  }

  predicate KeyBefore(a: string, b: string) {
    Before(Utf16(a), Utf16(b))
  }

  function InsertKey(keys: seq<string>, key: string): seq<string> {
    if keys == [] then [key]
    else if KeyBefore(keys[0], key) then [keys[0]] + InsertKey(keys[1..], key)
    else [key] + keys
  }

  function SortKeys(keys: seq<string>): (sorted: seq<string>)
    ensures |sorted| == |keys|
    ensures forall k :: k in sorted <==> k in keys
  {
    if keys == [] then []
    else
      var rest := SortKeys(keys[1..]);
      InsertedKeys(rest, keys[0]);
      assert keys == [keys[0]] + keys[1..];
      InsertKey(rest, keys[0])
  }

  lemma {:induction false} InsertedKeys(keys: seq<string>, key: string)
    ensures |InsertKey(keys, key)| == |keys| + 1
    ensures forall k :: k in InsertKey(keys, key) <==> k == key || k in keys
  {
    if keys != [] {
      InsertedKeys(keys[1..], key);
      assert keys == [keys[0]] + keys[1..];
    }
  }

  function KeysOf(members: seq<Member>): (keys: seq<string>)
    ensures |keys| == |members|
    ensures forall i :: 0 <= i < |members| ==> keys[i] == members[i].key
  {
    seq(|members|, i requires 0 <= i < |members| => members[i].key)
  }

  /** Where a key stands among the members. */
  function Index(members: seq<Member>, key: string): (i: nat)
    requires key in KeysOf(members)
    ensures i < |members| && members[i].key == key
  {
    if members[0].key == key then 0
    else
      assert exists i :: 0 <= i < |members| && KeysOf(members)[i] == key && members[1..][i - 1].key == key;
      Index(members[1..], key) + 1
  }

  /** The value with every object's members in key order. */
  function Ordered(v: Json): Json
    decreases v
  {
    match v
    case Array(items) => Array(seq(|items|, i requires 0 <= i < |items| => Ordered(items[i])))
    case Object(members) =>
      var keys := SortKeys(KeysOf(members));
      Object(seq(|keys|, i requires 0 <= i < |keys| =>
        assert keys[i] in keys;
        Member(keys[i], Ordered(members[Index(members, keys[i])].value))))
    case _ => v
  }

  // ---------------------------------------------------------------- text

  function HexDigit(n: int): char
    requires 0 <= n < 16
  {
    if n < 10 then ('0' as int + n) as char else ('a' as int + n - 10) as char
  }

  function Escape(c: char): string {
    if c == '"' then "\\\""
    else if c == '\\' then "\\\\"
    else if c == '\U{0008}' then "\\b"
    else if c == '\U{000C}' then "\\f"
    else if c == '\n' then "\\n"
    else if c == '\r' then "\\r"
    else if c == '\t' then "\\t"
    else if c == '\U{2028}' then "\\u2028"
    else if c == '\U{2029}' then "\\u2029"
    else if c < ' ' then "\\u00" + [HexDigit(c as int / 16), HexDigit(c as int % 16)]
    else [c]
  }

  /** The characters of a string and its closing quote, then `rest`. */
  function CharsThen(s: string, rest: string): string {
    if s == "" then "\"" + rest else Escape(s[0]) + CharsThen(s[1..], rest)
  }

  function StringThen(s: string, rest: string): string {
    "\"" + CharsThen(s, rest)
  }

  function Digits(n: nat): string {
    if n < 10 then [('0' as int + n) as char] else Digits(n / 10) + [('0' as int + n % 10) as char]
  }

  function Decimal(n: int): string {
    if n < 0 then "-" + Digits(-n) else Digits(n)
  }

  /** The text of a value, members as they stand, then `rest`. */
  function TextThen(v: Json, rest: string): string
    decreases v, 0
  {
    match v
    case Null => "null" + rest
    case Bool(b) => (if b then "true" else "false") + rest
    case Number(n) => Decimal(n) + rest
    case Str(s) => StringThen(s, rest)
    case Array(items) => "[" + ItemsThen(v, 0, rest)
    case Object(members) => "{" + MembersThen(v, 0, rest)
  }

  function ItemsThen(v: Json, i: nat, rest: string): string
    requires v.Array? && i <= |v.items|
    decreases v, 0, |v.items| - i
  {
    if i == |v.items| then "]" + rest
    else (if i > 0 then "," else "") + TextThen(v.items[i], ItemsThen(v, i + 1, rest))
  }

  function MembersThen(v: Json, i: nat, rest: string): string
    requires v.Object? && i <= |v.members|
    decreases v, 0, |v.members| - i
  {
    if i == |v.members| then "}" + rest
    else
      (if i > 0 then "," else "")
      + StringThen(v.members[i].key, ":" + TextThen(v.members[i].value, MembersThen(v, i + 1, rest)))
  }

  function Canonical(v: Json): string {
    TextThen(Ordered(v), "")
  }

  // ---------------------------------------------------------------- the writer

  lemma {:induction false} CharsThenSplits(s: string, rest: string)
    ensures CharsThen(s, rest) == CharsThen(s, "") + rest
  {
    if s == "" {
      assert "\"" + "" == "\"";
    } else {
      CharsThenSplits(s[1..], rest);
      assert Escape(s[0]) + (CharsThen(s[1..], "") + rest) == (Escape(s[0]) + CharsThen(s[1..], "")) + rest;
    }
  }

  lemma StringThenSplits(s: string, rest: string)
    ensures StringThen(s, rest) == StringThen(s, "") + rest
  {
    CharsThenSplits(s, rest);
    assert "\"" + (CharsThen(s, "") + rest) == ("\"" + CharsThen(s, "")) + rest;
  }

  lemma {:induction false} TextThenSplits(v: Json, rest: string)
    ensures TextThen(v, rest) == TextThen(v, "") + rest
    decreases v, 1
  {
    match v
    case Str(s) => StringThenSplits(s, rest);
    case Array(items) =>
      ItemsThenSplits(v, 0, rest);
      assert "[" + (ItemsThen(v, 0, "") + rest) == ("[" + ItemsThen(v, 0, "")) + rest;
    case Object(members) =>
      MembersThenSplits(v, 0, rest);
      assert "{" + (MembersThen(v, 0, "") + rest) == ("{" + MembersThen(v, 0, "")) + rest;
    case _ =>
  }

  lemma {:induction false} ItemsThenSplits(v: Json, i: nat, rest: string)
    requires v.Array? && i <= |v.items|
    ensures ItemsThen(v, i, rest) == ItemsThen(v, i, "") + rest
    decreases v, 0, |v.items| - i
  {
    if i < |v.items| {
      ItemsThenSplits(v, i + 1, rest);
      TextThenSplits(v.items[i], ItemsThen(v, i + 1, rest));
      TextThenSplits(v.items[i], ItemsThen(v, i + 1, ""));
      var comma, text, after := if i > 0 then "," else "", TextThen(v.items[i], ""), ItemsThen(v, i + 1, "");
      assert comma + (text + (after + rest)) == (comma + (text + after)) + rest;
    }
  }

  lemma {:induction false} MembersThenSplits(v: Json, i: nat, rest: string)
    requires v.Object? && i <= |v.members|
    ensures MembersThen(v, i, rest) == MembersThen(v, i, "") + rest
    decreases v, 0, |v.members| - i
  {
    if i < |v.members| {
      var m := v.members[i];
      MembersThenSplits(v, i + 1, rest);
      MemberThenSplits(m, MembersThen(v, i + 1, rest));
      MemberThenSplits(m, MembersThen(v, i + 1, ""));
      var comma, text, after := if i > 0 then "," else "", MemberText(m), MembersThen(v, i + 1, "");
      assert comma + (text + (after + rest)) == (comma + (text + after)) + rest;
    }
  }

  function MemberText(m: Member): string {
    StringThen(m.key, "") + ":" + TextThen(m.value, "")
  }

  lemma {:induction false} MemberThenSplits(m: Member, after: string)
    ensures StringThen(m.key, ":" + TextThen(m.value, after)) == MemberText(m) + after
    decreases m, 2
  {
    TextThenSplits(m.value, after);
    StringThenSplits(m.key, ":" + TextThen(m.value, after));
    var key, text := StringThen(m.key, ""), TextThen(m.value, "");
    assert key + (":" + (text + after)) == (key + ":" + text) + after;
  }

  lemma CharsThenStep(s: string, i: nat)
    requires i < |s|
    ensures CharsThen(s[i..], "") == Escape(s[i]) + CharsThen(s[i + 1..], "")
  {
    assert s[i..][1..] == s[i + 1..];
  }

  lemma CharsThenEnds(s: string)
    ensures CharsThen(s[|s|..], "") == "\""
  {
    assert "\"" + "" == "\"";
  }

  lemma ObjectFrame(v: Json)
    requires v.Object?
    ensures Ordered(v).Object? && |Ordered(v).members| == |SortKeys(KeysOf(v.members))|
    ensures Canonical(v) == "{" + MembersThen(Ordered(v), 0, "")
    ensures MembersThen(Ordered(v), |Ordered(v).members|, "") == "}"
  {
    hide SortKeys;
    assert "}" + "" == "}";
  }

  lemma ObjectMember(v: Json, i: nat)
    requires v.Object? && Ordered(v).Object? && i < |Ordered(v).members| == |SortKeys(KeysOf(v.members))|
    ensures var o, key := Ordered(v), SortKeys(KeysOf(v.members))[i];
            && key in KeysOf(v.members)
            && o.members[i] == Member(key, Ordered(v.members[Index(v.members, key)].value))
            && MembersThen(o, i, "") ==
               (if i > 0 then "," else "") + (MemberText(o.members[i]) + MembersThen(o, i + 1, ""))
  {
    MemberThenSplits(Ordered(v).members[i], MembersThen(Ordered(v), i + 1, ""));
    hide SortKeys, MemberText, StringThen, TextThen;
    assert SortKeys(KeysOf(v.members))[i] in SortKeys(KeysOf(v.members));
  }

  lemma MemberTextIs(key: string, value: Json)
    ensures MemberText(Member(key, Ordered(value))) == (StringThen(key, "") + ":") + Canonical(value)
  {
    hide StringThen, TextThen, Ordered;
  }

  lemma Joins(a: string, b: string, c: string, d: string)
    ensures ((a + b) + c) + d == a + ((b + c) + d)
  {
  }

  class Writer {
    var out: string

    constructor ()
      ensures out == ""
    {
      out := "";
    }

    method WriteJsonString(s: string)
      modifies this
      ensures out == old(out) + StringThen(s, "")
    {
      hide Escape, CharsThen;
      out := out + "\"";
      assert s[0..] == s;
      for i := 0 to |s|
        invariant out + CharsThen(s[i..], "") == old(out) + StringThen(s, "")
      {
        CharsThenStep(s, i);
        assert (out + Escape(s[i])) + CharsThen(s[i + 1..], "") == out + (Escape(s[i]) + CharsThen(s[i + 1..], ""));
        out := out + Escape(s[i]);
      }
      out := out + "\"";
      CharsThenEnds(s);
    }

    /** Appends the canonical text: members in the order of their keys' UTF-16 units. */
    method WriteCanonical(value: Json)
      modifies this
      ensures out == old(out) + Canonical(value)
      decreases value, 1
    {
      match value {
        case Null => out := out + "null";
        case Bool(b) => out := out + if b then "true" else "false";
        case Number(n) => out := out + Decimal(n);
        case Str(s) => WriteJsonString(s);
        case Array(_) => WriteArray(value);
        case Object(_) => WriteObject(value);
      }
    }

    method WriteArray(value: Json)
      requires value.Array?
      modifies this
      ensures out == old(out) + Canonical(value)
      decreases value, 0
    {
      ghost var o, start := Ordered(value), out;
      out := out + "[";
      for i := 0 to |value.items|
        invariant out + ItemsThen(o, i, "") == start + Canonical(value)
      {
        ghost var before, comma := out, if i > 0 then "," else "";
        TextThenSplits(o.items[i], ItemsThen(o, i + 1, ""));
        if i > 0 {
          out := out + ",";
        }
        WriteCanonical(value.items[i]);
        Reassociate(before, comma, Canonical(value.items[i]), ItemsThen(o, i + 1, ""), out);
      }
      out := out + "]";
    }

    method WriteObject(value: Json)
      requires value.Object?
      modifies this
      ensures out == old(out) + Canonical(value)
      decreases value, 0
    {
      hide *;
      ObjectFrame(value);
      ghost var o, start := Ordered(value), out;
      var members := value.members;
      var keys := SortKeys(KeysOf(members));
      out := out + "{";
      for i := 0 to |keys|
        invariant out + MembersThen(o, i, "") == start + Canonical(value)
      {
        ghost var before, comma := out, if i > 0 then "," else "";
        ObjectMember(value, i);
        if i > 0 {
          out := out + ",";
        }
        WriteMember(keys[i], members[Index(members, keys[i])].value);
        Reassociate(before, comma, MemberText(o.members[i]), MembersThen(o, i + 1, ""), out);
      }
      out := out + "}";
    }

    method WriteMember(key: string, value: Json)
      modifies this
      ensures out == old(out) + MemberText(Member(key, Ordered(value)))
      decreases value, 2
    {
      hide *;
      MemberTextIs(key, value);
      ghost var start := out;
      WriteJsonString(key);
      out := out + ":";
      WriteCanonical(value);
      Joins(start, StringThen(key, ""), ":", Canonical(value));
    }
  }

  lemma Reassociate(before: string, comma: string, text: string, after: string, out: string)
    requires out == before + comma + text || (comma == "" && out == before + text)
    ensures out + after == before + (comma + (text + after))
  {
  }
}
