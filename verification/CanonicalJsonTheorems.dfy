/** The canonical form reads back to the value, says the same for equal values
    whatever their member order, and different things for different values. */
module CanonicalJsonTheorems {
  import opened Wrappers
  import opened CanonicalJson

  // ---------------------------------------------------------------- reading JSON text

  predicate Digit(c: char) {
    '0' <= c <= '9'
  }

  function HexValue(c: char): Option<int> {
    if Digit(c) then Some(c as int - '0' as int)
    else if 'a' <= c <= 'f' then Some(c as int - 'a' as int + 10)
    else if 'A' <= c <= 'F' then Some(c as int - 'A' as int + 10)
    else None
  }

  function Hex(s: string, value: int): Option<int> {
    if s == "" then Some(value)
    else if HexValue(s[0]).None? then None
    else Hex(s[1..], value * 16 + HexValue(s[0]).value)
  }

  predicate Scalar(n: int) {
    0 <= n < 0xD800 || 0xE000 <= n < 0x11_0000
  }

  /** One character of a string, escaped or plain, and what follows it. */
  function ReadChar(s: string): (r: Option<(char, string)>)
    ensures r.Some? ==> |r.value.1| < |s|
  {
    if s == "" || s[0] < ' ' || s[0] == '"' then None
    else if s[0] != '\\' then Some((s[0], s[1..]))
    else if |s| == 1 then None
    else
      match s[1]
      case '"' => Some(('"', s[2..]))
      case '\\' => Some(('\\', s[2..]))
      case '/' => Some(('/', s[2..]))
      case 'b' => Some(('\U{0008}', s[2..]))
      case 'f' => Some(('\U{000C}', s[2..]))
      case 'n' => Some(('\n', s[2..]))
      case 'r' => Some(('\r', s[2..]))
      case 't' => Some(('\t', s[2..]))
      case 'u' =>
        if |s| < 6 then None
        else
          var code := Hex(s[2..6], 0);
          if code.None? || !Scalar(code.value) then None else Some((code.value as char, s[6..]))
      case _ => None
  }

  /** Characters up to and with the closing quote. */
  function ReadChars(s: string): (r: Option<(string, string)>)
    ensures r.Some? ==> |r.value.1| < |s|
    decreases |s|
  {
    if s != "" && s[0] == '"' then Some(("", s[1..]))
    else
      match ReadChar(s)
      case None => None
      case Some((c, after)) =>
        match ReadChars(after)
        case None => None
        case Some((cs, rest)) => Some(([c] + cs, rest))
  }

  function ReadDigits(s: string, value: int): (int, string)
    ensures |ReadDigits(s, value).1| <= |s|
  {
    if s != "" && Digit(s[0]) then ReadDigits(s[1..], value * 10 + (s[0] as int - '0' as int)) else (value, s)
  }

  function ReadNumber(s: string): (r: Option<(Json, string)>)
    ensures r.Some? ==> |r.value.1| < |s|
  {
    var negative := s != "" && s[0] == '-';
    var digits := if negative then s[1..] else s;
    if digits == "" || !Digit(digits[0]) then None
    else
      var (n, rest) := ReadDigits(digits[1..], digits[0] as int - '0' as int);
      Some((Number(if negative then -n else n), rest))
  }

  function ReadValue(s: string): (r: Option<(Json, string)>)
    ensures r.Some? ==> |r.value.1| < |s|
    decreases |s|, 1
  {
    if s == "" then None
    else if "null" <= s then Some((Null, s[4..]))
    else if "true" <= s then Some((Bool(true), s[4..]))
    else if "false" <= s then Some((Bool(false), s[5..]))
    else if s[0] == '"' then
      match ReadChars(s[1..])
      case None => None
      case Some((cs, rest)) => Some((Str(cs), rest))
    else if s[0] == '[' then
      if "[]" <= s then Some((Array([]), s[2..]))
      else
        match ReadItems(s[1..])
        case None => None
        case Some((items, rest)) => Some((Array(items), rest))
    else if s[0] == '{' then
      if "{}" <= s then Some((Object([]), s[2..]))
      else
        match ReadMembers(s[1..])
        case None => None
        case Some((members, rest)) => Some((Object(members), rest))
    else ReadNumber(s)
  }

  function ReadItems(s: string): (r: Option<(seq<Json>, string)>)
    ensures r.Some? ==> |r.value.1| < |s|
    decreases |s|, 2
  {
    match ReadValue(s)
    case None => None
    case Some((item, after)) =>
      if "]" <= after then Some(([item], after[1..]))
      else if "," <= after then
        match ReadItems(after[1..])
        case None => None
        case Some((more, rest)) => Some(([item] + more, rest))
      else None
  }

  function ReadMembers(s: string): (r: Option<(seq<Member>, string)>)
    ensures r.Some? ==> |r.value.1| < |s|
    decreases |s|, 2
  {
    if s == "" || s[0] != '"' then None
    else
      match ReadChars(s[1..])
      case None => None
      case Some((key, colon)) =>
        if !(":" <= colon) then None
        else
          match ReadValue(colon[1..])
          case None => None
          case Some((value, after)) =>
            if "}" <= after then Some(([Member(key, value)], after[1..]))
            else if "," <= after then
              match ReadMembers(after[1..])
              case None => None
              case Some((more, rest)) => Some(([Member(key, value)] + more, rest))
            else None
  }

  function Decode(s: string): Option<Json> {
    match ReadValue(s)
    case Some((v, "")) => Some(v)
    case _ => None
  }

  // ---------------------------------------------------------------- what is written is read

  lemma EscapeIsRead(c: char, rest: string)
    ensures ReadChar(Escape(c) + rest) == Some((c, rest))
    ensures Escape(c) != "" && (Escape(c) + rest)[0] != '"'
  {
    var s := Escape(c) + rest;
    if c == '\U{2028}' {
      HexOfFour(s, '2', '0', '2', '8', rest);
    } else if c == '\U{2029}' {
      HexOfFour(s, '2', '0', '2', '9', rest);
    } else if |Escape(c)| == 6 {
      HexOfFour(s, '0', '0', HexDigit(c as int / 16), HexDigit(c as int % 16), rest);
    } else if |Escape(c)| == 2 {
      assert s[2..] == rest;
    } else {
      assert s[1..] == rest;
    }
  }

  lemma HexOfFour(s: string, a: char, b: char, c: char, d: char, rest: string)
    requires s == ['\\', 'u', a, b, c, d] + rest
    requires HexValue(a).Some? && HexValue(b).Some? && HexValue(c).Some? && HexValue(d).Some?
    ensures Hex(s[2..6], 0) == Some(((HexValue(a).value * 16 + HexValue(b).value) * 16 + HexValue(c).value) * 16 + HexValue(d).value)
    ensures s[6..] == rest
  {
    var t := s[2..6];
    assert t == [a, b, c, d] && t[1..] == [b, c, d] && [b, c, d][1..] == [c, d] && [c, d][1..] == [d] && [d][1..] == "";
    var w := HexValue(a).value;
    assert Hex(t, 0) == Hex([b, c, d], w);
    assert Hex([b, c, d], w) == Hex([c, d], w * 16 + HexValue(b).value);
    var x := w * 16 + HexValue(b).value;
    assert Hex([c, d], x) == Hex([d], x * 16 + HexValue(c).value);
    assert Hex([d], x * 16 + HexValue(c).value) == Hex("", (x * 16 + HexValue(c).value) * 16 + HexValue(d).value);
  }

  lemma {:induction false} CharsAreRead(s: string, rest: string)
    ensures ReadChars(CharsThen(s, rest)) == Some((s, rest))
  {
    if s == "" {
      assert ("\"" + rest)[1..] == rest;
    } else {
      EscapeIsRead(s[0], CharsThen(s[1..], rest));
      CharsAreRead(s[1..], rest);
      assert [s[0]] + s[1..] == s;
    }
  }

  lemma DigitsSplit(n: nat)
    requires n >= 10
    ensures Digits(n) == Digits(n / 10) + [('0' as int + n % 10) as char]
  {
  }

  lemma FirstDigitRead(n: nat, rest: string)
    requires n < 10
    ensures Digits(n) != "" && Digit(Digits(n)[0])
    ensures ReadDigits(Digits(n) + rest, 0) == ReadDigits(rest, n)
  {
    OneDigitRead(Digits(n)[0], rest, 0);
    hide ReadDigits;
    assert Digits(n) == [Digits(n)[0]];
  }

  lemma LastDigitRead(n: nat, d: char, rest: string)
    requires d == ('0' as int + n % 10) as char
    ensures ReadDigits([d] + rest, n / 10) == ReadDigits(rest, n)
  {
    OneDigitRead(d, rest, n / 10);
    hide ReadDigits;
  }

  lemma {:induction false} DigitsAreRead(n: nat, rest: string)
    ensures Digits(n) != "" && Digit(Digits(n)[0])
    ensures ReadDigits(Digits(n) + rest, 0) == ReadDigits(rest, n)
  {
    var d := ('0' as int + n % 10) as char;
    hide *;
    if n < 10 {
      FirstDigitRead(n, rest);
    } else {
      DigitsSplit(n);
      DigitsAreRead(n / 10, [d] + rest);
      LastDigitRead(n, d, rest);
      assert Digits(n) + rest == Digits(n / 10) + ([d] + rest);
    }
  }

  lemma OneDigitRead(d: char, rest: string, value: int)
    requires Digit(d)
    ensures ReadDigits([d] + rest, value) == ReadDigits(rest, value * 10 + (d as int - '0' as int))
  {
    assert ([d] + rest)[1..] == rest;
  }

  /** A number ends where no digit follows. */
  predicate NoDigitNext(rest: string) {
    rest == "" || !Digit(rest[0])
  }

  lemma NumberIsRead(n: int, rest: string)
    requires NoDigitNext(rest)
    ensures ReadNumber(Decimal(n) + rest) == Some((Number(n), rest))
    ensures var first := (Decimal(n) + rest)[0]; Digit(first) || first == '-'
  {
    var m := if n < 0 then -n else n;
    DigitsAreRead(m, rest);
    var digits := Digits(m) + rest;
    NoMoreDigits(rest, m);
    assert ReadDigits(digits, 0) == ReadDigits(digits[1..], digits[0] as int - '0' as int);
    hide Digits, ReadDigits;
    if n < 0 {
      assert (Decimal(n) + rest)[1..] == digits;
    }
  }

  lemma NoMoreDigits(rest: string, value: int)
    requires NoDigitNext(rest)
    ensures ReadDigits(rest, value) == (value, rest)
  {
  }

  lemma FirstCharacter(v: Json, rest: string)
    requires NoDigitNext(rest)
    ensures TextThen(v, rest) != "" && TextThen(v, rest)[0] !in "],}"
  {
    if v.Number? {
      NumberIsRead(v.n, rest);
    }
  }

  lemma RestAfterItem(v: Json, i: nat, rest: string)
    requires v.Array? && 0 < i <= |v.items|
    ensures NoDigitNext(ItemsThen(v, i, rest)) && ItemsThen(v, i, rest) != ""
  {
  }

  lemma RestAfterMember(v: Json, i: nat, rest: string)
    requires v.Object? && 0 < i <= |v.members|
    ensures NoDigitNext(MembersThen(v, i, rest)) && MembersThen(v, i, rest) != ""
  {
  }

  lemma WordsAreRead(rest: string)
    ensures ReadValue("null" + rest) == Some((Null, rest))
    ensures ReadValue("true" + rest) == Some((Bool(true), rest))
    ensures ReadValue("false" + rest) == Some((Bool(false), rest))
  {
    assert ("null" + rest)[4..] == rest && ("true" + rest)[4..] == rest && ("false" + rest)[5..] == rest;
    assert ("true" + rest)[0] == 't' && ("false" + rest)[0] == 'f';
  }

  lemma NumberTextIsRead(n: int, rest: string)
    requires NoDigitNext(rest)
    ensures ReadValue(Decimal(n) + rest) == Some((Number(n), rest))
  {
    NumberIsRead(n, rest);
    var s := Decimal(n) + rest;
    assert s[0] !in "ntf\"[{";
  }

  /** Reading what was written gives the value, and leaves what came after it. */
  lemma {:induction false} TextIsRead(v: Json, rest: string)
    requires NoDigitNext(rest)
    ensures ReadValue(TextThen(v, rest)) == Some((v, rest))
    decreases v, 2
  {
    match v
    case Null => WordsAreRead(rest);
    case Bool(b) => WordsAreRead(rest);
    case Number(n) => NumberTextIsRead(n, rest);
    case Str(cs) => StringIsRead(cs, rest);
    case Array(_) => ArrayIsRead(v, rest);
    case Object(_) => ObjectIsRead(v, rest);
  }

  lemma StringIsRead(cs: string, rest: string)
    ensures ReadValue(StringThen(cs, rest)) == Some((Str(cs), rest))
  {
    CharsAreRead(cs, rest);
    var s := StringThen(cs, rest);
    assert s[0] == '"' && s[1..] == CharsThen(cs, rest);
  }

  lemma {:induction false} ArrayIsRead(v: Json, rest: string)
    requires v.Array?
    ensures ReadValue(TextThen(v, rest)) == Some((v, rest))
    decreases v, 1
  {
    hide *;
    if v.items == [] {
      EmptyArrayIsRead(v, rest);
    } else {
      ItemsAreRead(v, 0, rest);
      RestAfterItem(v, 1, rest);
      FirstCharacter(v.items[0], ItemsThen(v, 1, rest));
      ArrayBegins(v, rest);
      assert v.items[0..] == v.items;
      BracketedItems(TextThen(v.items[0], ItemsThen(v, 1, rest)), TextThen(v, rest));
    }
  }

  lemma EmptyArrayIsRead(v: Json, rest: string)
    requires v == Array([])
    ensures ReadValue(TextThen(v, rest)) == Some((v, rest))
  {
    var s := TextThen(v, rest);
    assert s == "[" + ("]" + rest);
    BracketsAreRead(s, rest);
  }

  lemma BracketsAreRead(s: string, rest: string)
    requires s == "[" + ("]" + rest)
    ensures ReadValue(s) == Some((Array([]), rest))
  {
    hide ReadItems, ReadMembers, ReadNumber, ReadChars;
    assert s[..2] == "[]" && s[2..] == rest && s[0] == '[';
  }

  lemma ArrayBegins(v: Json, rest: string)
    requires v.Array? && v.items != []
    ensures TextThen(v, rest) == "[" + TextThen(v.items[0], ItemsThen(v, 1, rest))
  {
    assert TextThen(v, rest) == "[" + ItemsThen(v, 0, rest);
    assert ItemsThen(v, 0, rest) == "" + TextThen(v.items[0], ItemsThen(v, 1, rest));
  }

  lemma BracketedItems(inner: string, s: string)
    requires s == "[" + inner && inner != "" && inner[0] != ']' && ReadItems(inner).Some?
    ensures ReadValue(s) == Some((Array(ReadItems(inner).value.0), ReadItems(inner).value.1))
  {
    hide ReadItems;
    assert s[0] == '[' && s[1] == inner[0] && s[1..] == inner;
  }

  lemma {:induction false} ObjectIsRead(v: Json, rest: string)
    requires v.Object?
    ensures ReadValue(TextThen(v, rest)) == Some((v, rest))
    decreases v, 1
  {
    hide *;
    if v.members == [] {
      EmptyObjectIsRead(v, rest);
    } else {
      var first := v.members[0];
      var inner := StringThen(first.key, ":" + TextThen(first.value, MembersThen(v, 1, rest)));
      ObjectBegins(v, rest);
      MembersAreRead(v, 0, rest);
      assert v.members[0..] == v.members;
      BracedMembers(inner, TextThen(v, rest));
    }
  }

  lemma EmptyObjectIsRead(v: Json, rest: string)
    requires v == Object([])
    ensures ReadValue(TextThen(v, rest)) == Some((v, rest))
  {
    var s := TextThen(v, rest);
    assert s == "{" + ("}" + rest);
    assert s[..2] == "{}" && s[2..] == rest && s[0] == '{';
  }

  lemma ObjectBegins(v: Json, rest: string)
    requires v.Object? && v.members != []
    ensures var first := v.members[0];
            var inner := StringThen(first.key, ":" + TextThen(first.value, MembersThen(v, 1, rest)));
            TextThen(v, rest) == "{" + inner && inner != "" && inner[0] == '"'
  {
    var first := v.members[0];
    var inner := StringThen(first.key, ":" + TextThen(first.value, MembersThen(v, 1, rest)));
    assert TextThen(v, rest) == "{" + MembersThen(v, 0, rest);
    assert MembersThen(v, 0, rest) == "" + inner == inner;
  }

  lemma BracedMembers(inner: string, s: string)
    requires s == "{" + inner && inner != "" && inner[0] == '"' && ReadMembers(inner).Some?
    ensures ReadValue(s) == Some((Object(ReadMembers(inner).value.0), ReadMembers(inner).value.1))
  {
    assert s[0] == '{' && s[1] == '"' && s[1..] == inner;
  }

  lemma {:induction false} ItemsAreRead(v: Json, i: nat, rest: string)
    requires v.Array? && i < |v.items|
    ensures ReadItems(TextThen(v.items[i], ItemsThen(v, i + 1, rest))) == Some((v.items[i..], rest))
    decreases v, 0, |v.items| - i
  {
    hide *;
    var after := ItemsThen(v, i + 1, rest);
    RestAfterItem(v, i + 1, rest);
    TextIsRead(v.items[i], after);
    OneItemIsRead(v.items[i], after);
    if i + 1 == |v.items| {
      ItemsEnd(v, rest);
      assert v.items[i..] == [v.items[i]];
    } else {
      ItemsAreRead(v, i + 1, rest);
      ItemsGoOn(v, i + 1, rest);
      assert v.items[i..] == [v.items[i]] + v.items[i + 1..];
    }
  }

  lemma OneItemIsRead(item: Json, after: string)
    requires ReadValue(TextThen(item, after)) == Some((item, after))
    ensures ReadItems(TextThen(item, after)) ==
            if "]" <= after then Some(([item], after[1..]))
            else if "," <= after && ReadItems(after[1..]).Some? then
              Some(([item] + ReadItems(after[1..]).value.0, ReadItems(after[1..]).value.1))
            else None
  {
    hide ReadValue, TextThen;
  }

  lemma ItemsEnd(v: Json, rest: string)
    requires v.Array?
    ensures var s := ItemsThen(v, |v.items|, rest); "]" <= s && s[1..] == rest
  {
  }

  lemma ItemsGoOn(v: Json, i: nat, rest: string)
    requires v.Array? && 0 < i < |v.items|
    ensures var s := ItemsThen(v, i, rest);
            "," <= s && !("]" <= s) && s[1..] == TextThen(v.items[i], ItemsThen(v, i + 1, rest))
  {
    var next := TextThen(v.items[i], ItemsThen(v, i + 1, rest));
    assert ItemsThen(v, i, rest) == "," + next && ("," + next)[0] == ',' && ("," + next)[1..] == next;
  }

  lemma {:induction false} MembersAreRead(v: Json, i: nat, rest: string)
    requires v.Object? && i < |v.members|
    ensures var m := v.members[i];
            ReadMembers(StringThen(m.key, ":" + TextThen(m.value, MembersThen(v, i + 1, rest)))) == Some((v.members[i..], rest))
    decreases v, 0, |v.members| - i
  {
    hide *;
    var m := v.members[i];
    var after := MembersThen(v, i + 1, rest);
    RestAfterMember(v, i + 1, rest);
    TextIsRead(m.value, after);
    MemberIsRead(m, after);
    if i + 1 == |v.members| {
      MembersEnd(v, rest);
      assert v.members[i..] == [m];
    } else {
      MembersAreRead(v, i + 1, rest);
      MembersGoOn(v, i + 1, rest);
      assert v.members[i..] == [m] + v.members[i + 1..];
    }
  }

  lemma MembersEnd(v: Json, rest: string)
    requires v.Object?
    ensures var s := MembersThen(v, |v.members|, rest); "}" <= s && s[1..] == rest
  {
  }

  lemma MembersGoOn(v: Json, i: nat, rest: string)
    requires v.Object? && 0 < i < |v.members|
    ensures var (s, m) := (MembersThen(v, i, rest), v.members[i]);
            "," <= s && !("}" <= s) && s[1..] == StringThen(m.key, ":" + TextThen(m.value, MembersThen(v, i + 1, rest)))
  {
    hide StringThen, TextThen;
    var m := v.members[i];
    var next := StringThen(m.key, ":" + TextThen(m.value, MembersThen(v, i + 1, rest)));
    assert MembersThen(v, i, rest) == "," + next && ("," + next)[0] == ',' && ("," + next)[1..] == next;
  }

  lemma MemberIsRead(m: Member, after: string)
    requires ReadValue(TextThen(m.value, after)) == Some((m.value, after))
    ensures ReadMembers(StringThen(m.key, ":" + TextThen(m.value, after))) ==
            if "}" <= after then Some(([m], after[1..]))
            else if "," <= after && ReadMembers(after[1..]).Some? then
              Some(([m] + ReadMembers(after[1..]).value.0, ReadMembers(after[1..]).value.1))
            else None
  {
    var colon := ":" + TextThen(m.value, after);
    CharsAreRead(m.key, colon);
    assert StringThen(m.key, colon)[1..] == CharsThen(m.key, colon);
    assert colon[1..] == TextThen(m.value, after);
    if "," <= after {
      var more := ReadMembers(after[1..]);
    }
  }

  /** The canonical form reads back to the value with its members in key order. */
  lemma CanonicalReadsBack(v: Json)
    ensures Decode(Canonical(v)) == Some(Ordered(v))
  {
    TextIsRead(Ordered(v), "");
  }

  // ---------------------------------------------------------------- key order

  lemma UnitsAreDecodable(c: char, d: char, s: seq<int>, t: seq<int>)
    requires Units(c) + s == Units(d) + t
    ensures c == d && s == t
  {
    var x, y := Units(c) + s, Units(d) + t;
    assert x[0] == Units(c)[0] && y[0] == Units(d)[0];
    assert |Units(c)| == |Units(d)|;
    assert |Units(c)| == 2 ==> x[1] == Units(c)[1] && y[1] == Units(d)[1];
    assert s == x[|Units(c)|..] && t == y[|Units(d)|..];
  }

  lemma {:induction false} Utf16IsInjective(a: string, b: string)
    requires Utf16(a) == Utf16(b)
    ensures a == b
  {
    if a != "" && b != "" {
      UnitsAreDecodable(a[0], b[0], Utf16(a[1..]), Utf16(b[1..]));
      Utf16IsInjective(a[1..], b[1..]);
      assert a == [a[0]] + a[1..] && b == [b[0]] + b[1..];
    } else {
      assert |Utf16(a)| == 0 ==> a == "";
      assert |Utf16(b)| == 0 ==> b == "";
    }
  }

  lemma {:induction false} BeforeIsAnOrder(a: seq<int>, b: seq<int>)
    ensures !(Before(a, b) && Before(b, a)) && !Before(a, a)
    ensures Before(a, b) || Before(b, a) || a == b
  {
    if a != [] {
      if b != [] {
        BeforeIsAnOrder(a[1..], b[1..]);
        assert a == [a[0]] + a[1..] && b == [b[0]] + b[1..];
      }
      BeforeIsAnOrder(a[1..], a[1..]);
    }
  }

  lemma {:induction false} BeforeIsTransitive(a: seq<int>, b: seq<int>, c: seq<int>)
    requires Before(a, b) && Before(b, c)
    ensures Before(a, c)
  {
    if a != [] && a[0] == b[0] == c[0] {
      BeforeIsTransitive(a[1..], b[1..], c[1..]);
    }
  }

  /** UTF-16 order is not code-point order: a supplementary character comes
      before the last characters of the basic plane. */
  lemma SupplementaryKeysComeEarlier()
    ensures KeyBefore("\U{10000}", "\U{FF61}") && '\U{FF61}' < '\U{10000}'
  {
    assert Utf16("\U{10000}") == [0xD800, 0xDC00] + Utf16("\U{10000}"[1..]);
    assert Utf16("\U{FF61}") == [0xFF61] + Utf16("\U{FF61}"[1..]);
  }

  ghost predicate Ascending(keys: seq<string>) {
    forall i, j :: 0 <= i < j < |keys| ==> KeyBefore(keys[i], keys[j])
  }

  ghost predicate Distinct(keys: seq<string>) {
    forall i, j :: 0 <= i < j < |keys| ==> keys[i] != keys[j]
  }

  lemma {:induction false} InsertKeepsAscending(keys: seq<string>, key: string)
    requires Ascending(keys) && key !in keys
    ensures Ascending(InsertKey(keys, key))
  {
    if keys != [] {
      BeforeIsAnOrder(Utf16(keys[0]), Utf16(key));
      if Utf16(keys[0]) == Utf16(key) {
        Utf16IsInjective(keys[0], key);
      }
      var rest := keys[1..];
      assert forall i :: 0 <= i < |rest| ==> rest[i] == keys[i + 1] && KeyBefore(keys[0], rest[i]);
      if KeyBefore(keys[0], key) {
        InsertKeepsAscending(rest, key);
        InsertedKeys(rest, key);
        var inserted := InsertKey(rest, key);
        forall i | 0 <= i < |inserted|
          ensures KeyBefore(keys[0], inserted[i])
        {
          assert inserted[i] in inserted;
          if inserted[i] != key {
            var j :| 0 <= j < |rest| && rest[j] == inserted[i];
          }
        }
      } else {
        forall i | 0 <= i < |keys|
          ensures KeyBefore(key, keys[i])
        {
          if i > 0 {
            BeforeIsTransitive(Utf16(key), Utf16(keys[0]), Utf16(keys[i]));
          }
        }
      }
    }
  }

  lemma {:induction false} SortedKeysAscend(keys: seq<string>)
    requires Distinct(keys)
    ensures Ascending(SortKeys(keys))
  {
    if keys != [] {
      SortedKeysAscend(keys[1..]);
      assert keys[0] !in keys[1..];
      InsertKeepsAscending(SortKeys(keys[1..]), keys[0]);
    }
  }

  /** Ascending keys are determined by which keys they are. */
  lemma {:induction false} AscendingKeysAreUnique(a: seq<string>, b: seq<string>)
    requires Ascending(a) && Ascending(b) && forall k :: k in a <==> k in b
    ensures a == b
  {
    if a == [] {
      assert forall i :: 0 <= i < |b| ==> b[i] in b;
    } else {
      assert a[0] in a && a[0] in b;
      assert b[0] in b && b[0] in a;
      BeforeIsAnOrder(Utf16(a[0]), Utf16(b[0]));
      assert a[0] == b[0];
      AscendingTail(a);
      AscendingTail(b);
      forall k
        ensures k in a[1..] <==> k in b[1..]
      {
        assert k in a <==> k in b;
      }
      AscendingKeysAreUnique(a[1..], b[1..]);
      assert a == [a[0]] + a[1..] && b == [b[0]] + b[1..];
    }
  }

  lemma AscendingTail(a: seq<string>)
    requires Ascending(a) && a != []
    ensures Ascending(a[1..]) && forall k :: k in a[1..] <==> k in a && k != a[0]
  {
    forall k | k in a[1..]
      ensures k != a[0] && k in a
    {
      var i :| 0 <= i < |a[1..]| && a[1..][i] == k;
      assert a[i + 1] == k;
      BeforeIsAnOrder(Utf16(a[0]), Utf16(k));
    }
    assert a == [a[0]] + a[1..];
  }

  // ---------------------------------------------------------------- equal up to member order

  /** No object has a key twice: what a map of members guarantees. */
  ghost predicate WellFormed(v: Json) {
    match v
    case Array(items) => forall i :: 0 <= i < |items| ==> WellFormed(items[i])
    case Object(members) =>
      Distinct(KeysOf(members)) && forall i :: 0 <= i < |members| ==> WellFormed(members[i].value)
    case _ => true
  }

  /** The same value, whatever the order of members. */
  ghost predicate Same(v: Json, w: Json)
    decreases v
  {
    match v
    case Array(items) =>
      w.Array? && |items| == |w.items| && forall i :: 0 <= i < |items| ==> Same(items[i], w.items[i])
    case Object(members) =>
      && w.Object?
      && (forall k :: k in KeysOf(members) <==> k in KeysOf(w.members))
      && forall k :: k in KeysOf(members) ==>
           Same(members[Index(members, k)].value, w.members[Index(w.members, k)].value)
    case _ => v == w
  }

  lemma {:induction false} SameIffOrderedAlike(v: Json, w: Json)
    requires WellFormed(v) && WellFormed(w)
    ensures Same(v, w) <==> Ordered(v) == Ordered(w)
    decreases v
  {
    if v.Array? && w.Array? {
      ItemsSameIff(v, w);
    } else if v.Object? && w.Object? {
      ObjectsSameIff(v, w);
    }
  }

  lemma {:induction false} ItemsSameIff(v: Json, w: Json)
    requires WellFormed(v) && WellFormed(w) && v.Array? && w.Array?
    ensures Same(v, w) <==> Ordered(v) == Ordered(w)
    decreases v, 0
  {
    if |v.items| == |w.items| {
      forall i | 0 <= i < |v.items|
        ensures Same(v.items[i], w.items[i]) <==> Ordered(v).items[i] == Ordered(w).items[i]
      {
        SameIffOrderedAlike(v.items[i], w.items[i]);
      }
    }
  }

  lemma OrderedKeys(v: Json)
    requires v.Object?
    ensures KeysOf(Ordered(v).members) == SortKeys(KeysOf(v.members))
  {
  }

  lemma {:induction false} ObjectsSameIff(v: Json, w: Json)
    requires WellFormed(v) && WellFormed(w) && v.Object? && w.Object?
    ensures Same(v, w) <==> Ordered(v) == Ordered(w)
    decreases v, 0
  {
    var m, n := v.members, w.members;
    var a, b := SortKeys(KeysOf(m)), SortKeys(KeysOf(n));
    SortedKeysAscend(KeysOf(m));
    SortedKeysAscend(KeysOf(n));
    OrderedMembers(v);
    OrderedMembers(w);
    hide Ordered, SortKeys, Ascending, Distinct;
    if forall k :: k in KeysOf(m) <==> k in KeysOf(n) {
      AscendingKeysAreUnique(a, b);
      forall i | 0 <= i < |a|
        ensures a[i] in KeysOf(m) && a[i] in KeysOf(n)
        ensures Same(m[Index(m, a[i])].value, n[Index(n, a[i])].value) <==> Ordered(v).members[i] == Ordered(w).members[i]
      {
        assert a[i] in a;
        SameIffOrderedAlike(m[Index(m, a[i])].value, n[Index(n, a[i])].value);
      }
      forall k | k in KeysOf(m)
        ensures exists i :: 0 <= i < |a| && a[i] == k
      {
        assert k in a;
      }
      if Ordered(v) == Ordered(w) {
        assert forall i :: 0 <= i < |a| ==> Ordered(v).members[i] == Ordered(w).members[i];
      } else {
        assert exists i :: 0 <= i < |a| && Ordered(v).members[i] != Ordered(w).members[i];
      }
    } else {
      OrderedKeys(v);
      OrderedKeys(w);
    }
  }

  lemma OrderedMembers(v: Json)
    requires v.Object?
    ensures var keys := SortKeys(KeysOf(v.members));
            && (forall k :: k in keys <==> k in KeysOf(v.members))
            && Ordered(v).Object? && |Ordered(v).members| == |keys|
            && forall i :: 0 <= i < |keys| ==>
                 && keys[i] in KeysOf(v.members)
                 && Ordered(v).members[i] == Member(keys[i], Ordered(v.members[Index(v.members, keys[i])].value))
  {
    var keys := SortKeys(KeysOf(v.members));
    forall i | 0 <= i < |keys|
      ensures keys[i] in KeysOf(v.members)
    {
      assert keys[i] in keys;
    }
  }

  /** The output says which value it is, and nothing else: equal for two values
      exactly when they are the same up to member order. */
  lemma CanonicalAgreesIffSame(v: Json, w: Json)
    requires WellFormed(v) && WellFormed(w)
    ensures Canonical(v) == Canonical(w) <==> Same(v, w)
  {
    CanonicalReadsBack(v);
    CanonicalReadsBack(w);
    SameIffOrderedAlike(v, w);
  }

  ghost predicate AllAscending(v: Json) {
    match v
    case Array(items) => forall i :: 0 <= i < |items| ==> AllAscending(items[i])
    case Object(members) =>
      Ascending(KeysOf(members)) && forall i :: 0 <= i < |members| ==> AllAscending(members[i].value)
    case _ => true
  }

  /** Keys appear in ascending UTF-16 order in every object of what is read back,
      and writing that again changes nothing. */
  lemma {:induction false} OrderedAscends(v: Json)
    requires WellFormed(v)
    ensures AllAscending(Ordered(v)) && Ordered(Ordered(v)) == Ordered(v)
    decreases v
  {
    var o := Ordered(v);
    if v.Array? {
      forall i | 0 <= i < |v.items|
        ensures AllAscending(o.items[i]) && Ordered(o.items[i]) == o.items[i]
      {
        OrderedAscends(v.items[i]);
      }
      assert Ordered(o).items == o.items;
    } else if v.Object? {
      var keys := SortKeys(KeysOf(v.members));
      SortedKeysAscend(KeysOf(v.members));
      assert KeysOf(o.members) == keys;
      forall i | 0 <= i < |keys|
        ensures AllAscending(o.members[i].value) && Ordered(o.members[i].value) == o.members[i].value
      {
        assert keys[i] in keys;
        OrderedAscends(v.members[Index(v.members, keys[i])].value);
      }
      OrderedObjectStays(o.members, keys);
    }
  }

  lemma OrderedObjectStays(members: seq<Member>, keys: seq<string>)
    requires KeysOf(members) == keys && Ascending(keys)
    requires forall i :: 0 <= i < |members| ==> Ordered(members[i].value) == members[i].value
    ensures Ordered(Object(members)) == Object(members)
  {
    assert Distinct(keys) by {
      forall i, j | 0 <= i < j < |keys|
        ensures keys[i] != keys[j]
      {
        BeforeIsAnOrder(Utf16(keys[i]), Utf16(keys[j]));
      }
    }
    SortedKeysAscend(keys);
    AscendingKeysAreUnique(SortKeys(keys), keys);
    forall i | 0 <= i < |keys|
      ensures keys[i] in keys && Index(members, keys[i]) == i
    {
      assert keys[Index(members, keys[i])] == keys[i];
    }
    assert Ordered(Object(members)).members == members;
  }
}
