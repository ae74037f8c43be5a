/** The canonical form is the shortest text that reads to its value: nothing is
    escaped that need not be, no number has a digit too many, nothing stands
    between the tokens. The two separators U+2028 and U+2029 are the exception. */
module CanonicalShortest {
  import opened Wrappers
  import opened CanonicalJson
  import opened CanonicalJsonTheorems

  predicate Separator(c: char) {
    c == '\U{2028}' || c == '\U{2029}'
  }

  predicate LowerHex(c: char) {
    c in "0123456789abcdef"
  }

  lemma LowerHexIs(c: char)
    ensures LowerHex(c) <==> Digit(c) || 'a' <= c <= 'f'
  {
    assert "0123456789abcdef"[0] == '0' && "0123456789abcdef"[1] == '1' && "0123456789abcdef"[2] == '2'
        && "0123456789abcdef"[3] == '3' && "0123456789abcdef"[4] == '4' && "0123456789abcdef"[5] == '5';
    if Digit(c) {
      assert "0123456789abcdef"[c as int - '0' as int] == c;
    } else if 'a' <= c <= 'f' {
      assert "0123456789abcdef"[c as int - 'a' as int + 10] == c;
    }
  }

  // ---------------------------------------------------------------- one character

  /** What was read is a prefix of the text. */
  lemma ReadIsAPrefix(t: string, rest: string, k: nat)
    requires k <= |t + rest| && rest == (t + rest)[k..]
    ensures |t| == k
  {
    assert |(t + rest)[k..]| == |t| + |rest| - k;
  }

  /** No text that reads to a character is shorter than its escape, and any as
      short, with lower-case hexadecimal digits, is the escape itself. */
  lemma EscapeIsShortest(c: char, t: string, rest: string)
    requires ReadChar(t + rest) == Some((c, rest)) && !Separator(c)
    ensures |Escape(c)| <= |t|
    ensures |Escape(c)| == |t| && (|t| == 6 ==> forall i :: 2 <= i < 6 ==> LowerHex(t[i])) ==> t == Escape(c)
  {
    var s := t + rest;
    if s[0] != '\\' {
      ReadIsAPrefix(t, rest, 1);
      assert t == [t[0]] && t[0] == s[0];
    } else if s[1] != 'u' {
      ReadIsAPrefix(t, rest, 2);
      assert t == [t[0], t[1]] && t[0] == s[0] && t[1] == s[1];
    } else {
      ReadIsAPrefix(t, rest, 6);
      if |Escape(c)| == 6 && forall i :: 2 <= i < 6 ==> LowerHex(t[i]) {
        HexIsOne(c, t, rest);
      }
    }
  }

  lemma HexIsOne(c: char, t: string, rest: string)
    requires |t| == 6 && t[0] == '\\' && t[1] == 'u' && (forall i :: 2 <= i < 6 ==> LowerHex(t[i]))
    requires ReadChar(t + rest) == Some((c, rest)) && !Separator(c) && |Escape(c)| == 6
    ensures t == Escape(c)
  {
    LongEscapeIs(c);
    hide *;
    assert t == ['\\', 'u', t[2], t[3], t[4], t[5]];
    assert LowerHex(t[2]) && LowerHex(t[3]) && LowerHex(t[4]) && LowerHex(t[5]);
    LowerHexHasValue(t[2]);
    LowerHexHasValue(t[3]);
    LowerHexHasValue(t[4]);
    LowerHexHasValue(t[5]);
    HexIsRead(c, t[2], t[3], t[4], t[5], rest);
    FourDigits(c, t[2], t[3], t[4], t[5]);
  }

  /** Any other escape of six characters is of a control character, its two last
      digits its code's, in lower case. */
  lemma LongEscapeIs(c: char)
    requires !Separator(c) && |Escape(c)| == 6
    ensures c < ' ' && Escape(c) == ['\\', 'u', '0', '0', HexDigit(c as int / 16), HexDigit(c as int % 16)]
    ensures LowerHex(Escape(c)[4]) && LowerHex(Escape(c)[5])
    ensures HexValue(Escape(c)[4]) == Some(c as int / 16) && HexValue(Escape(c)[5]) == Some(c as int % 16)
  {
    LongEscapeForm(c);
    hide *;
    HexDigitIs(c as int / 16);
    HexDigitIs(c as int % 16);
  }

  lemma LongEscapeForm(c: char)
    requires !Separator(c) && |Escape(c)| == 6
    ensures c < ' ' && Escape(c) == ['\\', 'u', '0', '0', HexDigit(c as int / 16), HexDigit(c as int % 16)]
  {
    hide HexDigit;
  }

  lemma HexDigitIs(n: nat)
    requires n < 16
    ensures LowerHex(HexDigit(n)) && HexValue(HexDigit(n)) == Some(n)
  {
    LowerHexIs(HexDigit(n));
    hide LowerHex;
  }

  lemma LowerHexHasValue(c: char)
    requires LowerHex(c)
    ensures HexValue(c).Some?
  {
    LowerHexIs(c);
    hide LowerHex;
  }

  lemma HexIsRead(c: char, p: char, q: char, r: char, s: char, rest: string)
    requires HexValue(p).Some? && HexValue(q).Some? && HexValue(r).Some? && HexValue(s).Some?
    requires ReadChar(['\\', 'u', p, q, r, s] + rest) == Some((c, rest))
    ensures c as int == ((HexValue(p).value * 16 + HexValue(q).value) * 16 + HexValue(r).value) * 16 + HexValue(s).value
  {
    HexOfFour(['\\', 'u', p, q, r, s] + rest, p, q, r, s, rest);
    hide Hex, HexValue;
  }

  lemma FourDigits(c: char, p: char, q: char, r: char, s: char)
    requires HexValue(p).Some? && HexValue(q).Some? && HexValue(r).Some? && HexValue(s).Some?
    requires LowerHex(p) && LowerHex(q) && LowerHex(r) && LowerHex(s)
    requires c as int == ((HexValue(p).value * 16 + HexValue(q).value) * 16 + HexValue(r).value) * 16 + HexValue(s).value
    requires c < ' '
    ensures p == '0' && q == '0' && r == HexDigit(c as int / 16) && s == HexDigit(c as int % 16)
  {
    LowerHexIs(p);
    LowerHexIs(q);
    LowerHexIs(r);
    LowerHexIs(s);
    hide LowerHex;
  }

  /** The separators are written as six characters. */
  lemma SeparatorsAreEscaped(c: char)
    requires Separator(c)
    ensures |Escape(c)| == 6 && Escape(c)[..5] == "\\u202" && Escape(c)[5] == if c == '\U{2028}' then '8' else '9'
  {
  }

  // ---------------------------------------------------------------- strings and numbers

  predicate NoSeparators(s: string) {
    forall i :: 0 <= i < |s| ==> !Separator(s[i])
  }

  lemma {:induction false} CharsNoShorter(s: string)
    requires ReadChars(s).Some? && NoSeparators(ReadChars(s).value.0)
    ensures |CharsThen(ReadChars(s).value.0, ReadChars(s).value.1)| <= |s|
    decreases |s|
  {
    if s[0] != '"' {
      var (c, after) := ReadChar(s).value;
      var (cs, rest) := ReadChars(after).value;
      assert ReadChars(s).value == ([c] + cs, rest);
      assert !Separator(([c] + cs)[0]);
      forall i | 0 <= i < |cs|
        ensures !Separator(cs[i])
      {
        assert !Separator(([c] + cs)[i + 1]);
      }
      CharsNoShorter(after);
      ReadCharTakes(s);
      hide ReadChar, Escape;
      EscapeIsShortest(c, s[..|s| - |after|], after);
      assert ([c] + cs)[1..] == cs && !Separator(([c] + cs)[0]);
    }
  }

  lemma ReadCharTakes(s: string)
    requires ReadChar(s).Some?
    ensures var after := ReadChar(s).value.1; s == s[..|s| - |after|] + after
  {
  }

  lemma OneMoreDigit(value: nat, d: int)
    requires 0 <= d < 10
    ensures |Digits(value * 10 + d)| <= |Digits(value)| + 1
  {
  }

  lemma {:induction false} DigitsNoShorter(s: string, value: nat)
    ensures var (n, rest) := ReadDigits(s, value);
            n >= 0 && |rest| <= |s| && |Digits(n)| <= |Digits(value)| + |s| - |rest|
    decreases |s|
  {
    if s != "" && Digit(s[0]) {
      var d := s[0] as int - '0' as int;
      OneMoreDigit(value, d);
      hide Digits;
      DigitsNoShorter(s[1..], value * 10 + d);
    }
  }

  lemma NumberNoShorter(s: string)
    requires ReadNumber(s).Some?
    ensures ReadNumber(s).value.0.Number?
    ensures |Decimal(ReadNumber(s).value.0.n)| + |ReadNumber(s).value.1| <= |s|
  {
    var digits := if s[0] == '-' then s[1..] else s;
    var d := digits[0] as int - '0' as int;
    assert |Digits(d)| == 1;
    DigitsNoShorter(digits[1..], d);
    hide Digits, ReadDigits;
  }

  // ---------------------------------------------------------------- values

  /** No string or key in the value holds a separator. */
  predicate Plain(v: Json) {
    match v
    case Str(s) => NoSeparators(s)
    case Array(items) => forall i :: 0 <= i < |items| ==> Plain(items[i])
    case Object(members) => forall i :: 0 <= i < |members| ==> NoSeparators(members[i].key) && Plain(members[i].value)
    case _ => true
  }

  lemma LengthThen(v: Json, rest: string)
    ensures |TextThen(v, rest)| == |TextThen(v, "")| + |rest|
  {
    TextThenSplits(v, rest);
  }

  /** No text that reads to a value is shorter than the text written for it. */
  lemma {:induction false} ValueNoShorter(s: string)
    requires ReadValue(s).Some? && Plain(ReadValue(s).value.0)
    ensures |TextThen(ReadValue(s).value.0, ReadValue(s).value.1)| <= |s|
    decreases |s|, 1
  {
    var (v, rest) := ReadValue(s).value;
    hide *;
    match v
    case Array(items) =>
      BracketsRead(s);
      if items != [] {
        assert items[0..] == items;
        ItemsNoShorter(s[1..], v, 0);
      }
    case Object(members) =>
      BracesRead(s);
      if members != [] {
        assert members[0..] == members;
        MembersNoShorter(s[1..], v, 0);
      }
    case _ => ScalarNoShorter(s);
  }

  lemma ScalarNoShorter(s: string)
    requires ReadValue(s).Some? && Plain(ReadValue(s).value.0)
    requires var v := ReadValue(s).value.0; !v.Array? && !v.Object?
    ensures |TextThen(ReadValue(s).value.0, ReadValue(s).value.1)| <= |s|
  {
    hide ReadItems, ReadMembers, ReadChars, ReadNumber, Decimal, CharsThen, Ordered;
    if !("null" <= s || "true" <= s || "false" <= s) {
      if s[0] == '"' {
        CharsNoShorter(s[1..]);
      } else if s[0] != '[' && s[0] != '{' {
        NumberNoShorter(s);
      }
    }
  }

  lemma BracketsRead(s: string)
    requires ReadValue(s).Some? && ReadValue(s).value.0.Array?
    ensures var (v, rest) := ReadValue(s).value;
            if v.items == [] then |TextThen(v, rest)| <= |s|
            else
              && s != "" && ReadItems(s[1..]) == Some((v.items, rest))
              && |TextThen(v, rest)| == 1 + |TextThen(v.items[0], ItemsThen(v, 1, rest))|
  {
    hide *;
    var (v, rest) := ReadValue(s).value;
    ArrayRead(s);
    if v.items != [] {
      ArrayBegins(v, rest);
    } else if ReadItems(s[1..]) == Some((v.items, rest)) {
      MoreItems(s[1..]);
    } else {
      EmptyArrayText(rest);
    }
  }

  lemma EmptyArrayText(rest: string)
    ensures |TextThen(Array([]), rest)| == 2 + |rest|
  {
  }

  /** What a text begins with says what kind of value it reads to. */
  lemma FirstDecides(s: string)
    requires ReadValue(s).Some?
    ensures s != ""
    ensures ReadValue(s).value.0.Array? ==> s[0] == '['
    ensures ReadValue(s).value.0.Object? ==> s[0] == '{'
  {
    NumbersAreNumbers(s);
    hide ReadItems, ReadMembers, ReadChars, ReadNumber;
  }

  lemma ArrayRead(s: string)
    requires ReadValue(s).Some? && ReadValue(s).value.0.Array?
    ensures var (v, rest) := ReadValue(s).value;
            s != "" && (ReadItems(s[1..]) == Some((v.items, rest)) || (v.items == [] && |s| == 2 + |rest|))
  {
    FirstDecides(s);
    Bracketed(s);
    hide *;
  }

  /** Behind an opening bracket or brace. */
  lemma Bracketed(s: string)
    requires s != "" && (s[0] == '[' || s[0] == '{')
    ensures "[]" <= s ==> ReadValue(s) == Some((Array([]), s[2..])) && |s[2..]| == |s| - 2
    ensures "{}" <= s ==> ReadValue(s) == Some((Object([]), s[2..])) && |s[2..]| == |s| - 2
    ensures s[0] == '[' && !("[]" <= s) ==>
              ReadValue(s) == match ReadItems(s[1..])
                              case None => None
                              case Some((items, rest)) => Some((Array(items), rest))
    ensures s[0] == '{' && !("{}" <= s) ==>
              ReadValue(s) == match ReadMembers(s[1..])
                              case None => None
                              case Some((members, rest)) => Some((Object(members), rest))
  {
    hide ReadItems, ReadMembers, ReadChars, ReadNumber;
  }

  lemma ObjectRead(s: string)
    requires ReadValue(s).Some? && ReadValue(s).value.0.Object?
    ensures var (v, rest) := ReadValue(s).value;
            s != "" && (ReadMembers(s[1..]) == Some((v.members, rest)) || (v.members == [] && |s| == 2 + |rest|))
  {
    FirstDecides(s);
    Bracketed(s);
    hide *;
  }

  lemma BracesRead(s: string)
    requires ReadValue(s).Some? && ReadValue(s).value.0.Object?
    ensures var (v, rest) := ReadValue(s).value;
            if v.members == [] then |TextThen(v, rest)| <= |s|
            else
              && s != "" && ReadMembers(s[1..]) == Some((v.members, rest))
              && |TextThen(v, rest)| ==
                 1 + |StringThen(v.members[0].key, ":" + TextThen(v.members[0].value, MembersThen(v, 1, rest)))|
  {
    hide *;
    var (v, rest) := ReadValue(s).value;
    ObjectRead(s);
    if v.members != [] {
      ObjectBegins(v, rest);
    } else if ReadMembers(s[1..]) == Some((v.members, rest)) {
      MoreMembers(s[1..]);
    } else {
      EmptyObjectText(rest);
    }
  }

  lemma EmptyObjectText(rest: string)
    ensures |TextThen(Object([]), rest)| == 2 + |rest|
  {
  }

  lemma NumbersAreNumbers(s: string)
    ensures ReadNumber(s).Some? ==> ReadNumber(s).value.0.Number?
  {
    hide ReadDigits;
  }

  lemma ItemsRead(s: string)
    requires ReadItems(s).Some?
    ensures ReadValue(s).Some?
    ensures var ((item, after), (items, rest)) := (ReadValue(s).value, ReadItems(s).value);
            && after != ""
            && if items == [item] && after[0] == ']' then after[1..] == rest
               else ReadItems(after[1..]).Some? && ReadItems(after[1..]).value.1 == rest
                    && items == [item] + ReadItems(after[1..]).value.0
  {
    hide ReadValue;
  }

  lemma {:induction false} ItemsNoShorter(s: string, v: Json, i: nat)
    requires v.Array? && i < |v.items| && Plain(v) && ReadItems(s).Some? && ReadItems(s).value.0 == v.items[i..]
    ensures |TextThen(v.items[i], ItemsThen(v, i + 1, ReadItems(s).value.1))| <= |s|
    decreases |s|, 2
  {
    PlainItem(v, i);
    hide *;
    ItemsRead(s);
    var (item, after) := ReadValue(s).value;
    var rest := ReadItems(s).value.1;
    assert item == v.items[i..][0] == v.items[i];
    ValueNoShorter(s);
    LengthThen(item, after);
    LengthThen(item, ItemsThen(v, i + 1, rest));
    if v.items[i..] == [item] && after[0] == ']' {
      assert i + 1 == |v.items|;
      ItemsEnd(v, rest);
      assert |ItemsThen(v, i + 1, rest)| == 1 + |rest| == |after|;
    } else {
      assert v.items[i..][1..] == v.items[i + 1..];
      assert ReadItems(after[1..]).value.0 == v.items[i + 1..];
      MoreItems(after[1..]);
      ItemsNoShorter(after[1..], v, i + 1);
      ItemsGoOn(v, i + 1, rest);
    }
  }

  lemma PlainItem(v: Json, i: nat)
    requires v.Array? && i < |v.items| && Plain(v)
    ensures Plain(v.items[i])
  {
  }

  lemma MoreItems(s: string)
    requires ReadItems(s).Some?
    ensures ReadItems(s).value.0 != []
  {
    ItemsRead(s);
  }

  lemma MembersRead(s: string)
    requires ReadMembers(s).Some?
    ensures s != "" && ReadChars(s[1..]).Some? && ReadChars(s[1..]).value.1 != ""
    ensures ReadValue(ReadChars(s[1..]).value.1[1..]).Some?
    ensures var (key, colon) := ReadChars(s[1..]).value;
            var ((value, after), (members, rest)) := (ReadValue(colon[1..]).value, ReadMembers(s).value);
            && after != ""
            && if members == [Member(key, value)] && after[0] == '}' then after[1..] == rest
               else ReadMembers(after[1..]).Some? && ReadMembers(after[1..]).value.1 == rest
                    && members == [Member(key, value)] + ReadMembers(after[1..]).value.0
  {
    hide ReadValue, ReadChars;
  }

  lemma MoreMembers(s: string)
    requires ReadMembers(s).Some?
    ensures ReadMembers(s).value.0 != []
  {
    MembersRead(s);
    hide *;
  }

  lemma PlainMember(v: Json, i: nat)
    requires v.Object? && i < |v.members| && Plain(v)
    ensures NoSeparators(v.members[i].key) && Plain(v.members[i].value)
  {
  }

  lemma MemberLength(key: string, value: Json, after: string)
    ensures |StringThen(key, ":" + TextThen(value, after))| == |CharsThen(key, "")| + 2 + |TextThen(value, "")| + |after|
    ensures |CharsThen(key, after)| == |CharsThen(key, "")| + |after|
  {
    LengthThen(value, after);
    CharsThenSplits(key, ":" + TextThen(value, after));
    CharsThenSplits(key, after);
    hide CharsThen, TextThen;
  }

  lemma {:induction false} MembersNoShorter(s: string, v: Json, i: nat)
    requires v.Object? && i < |v.members| && Plain(v) && ReadMembers(s).Some? && ReadMembers(s).value.0 == v.members[i..]
    ensures var m := v.members[i];
            |StringThen(m.key, ":" + TextThen(m.value, MembersThen(v, i + 1, ReadMembers(s).value.1)))| <= |s|
    decreases |s|, 2
  {
    PlainMember(v, i);
    hide *;
    MembersRead(s);
    var (key, colon) := ReadChars(s[1..]).value;
    var (value, after) := ReadValue(colon[1..]).value;
    var rest := ReadMembers(s).value.1;
    assert Member(key, value) == v.members[i..][0] == v.members[i];
    CharsNoShorter(s[1..]);
    ValueNoShorter(colon[1..]);
    MemberLength(key, value, after);
    MemberLength(key, value, colon);
    LengthThen(value, after);
    MemberLength(key, value, MembersThen(v, i + 1, rest));
    if v.members[i..] == [Member(key, value)] && after[0] == '}' {
      assert i + 1 == |v.members|;
      MembersEnd(v, rest);
      assert |MembersThen(v, i + 1, rest)| == 1 + |rest| == |after|;
    } else {
      assert v.members[i..][1..] == v.members[i + 1..];
      assert ReadMembers(after[1..]).value.0 == v.members[i + 1..];
      MoreMembers(after[1..]);
      MembersNoShorter(after[1..], v, i + 1);
      MembersGoOn(v, i + 1, rest);
    }
  }

  /** The canonical form is as short as any text that reads to the same value. */
  lemma CanonicalIsShortest(v: Json, t: string)
    requires Plain(Ordered(v)) && Decode(t) == Some(Ordered(v))
    ensures |Canonical(v)| <= |t| && Decode(Canonical(v)) == Some(Ordered(v))
  {
    CanonicalReadsBack(v);
    ValueNoShorter(t);
  }
}
