/** What a valid client id and a valid display name are, said of their
    characters. */
module Names {
  import opened Wrappers
  import opened Registry

  const LETTERS := "abcdefghijklmnopqrstuvwxyz"
  const DIGITS := "0123456789"

  lemma LetterIff(c: char)
    ensures 'a' <= c <= 'z' <==> c in LETTERS
  {
    if 'a' <= c <= 'z' {
      assert LETTERS[c as int - 'a' as int] == c;
    }
  }

  lemma DigitIff(c: char)
    ensures '0' <= c <= '9' <==> c in DIGITS
  {
    if '0' <= c <= '9' {
      assert DIGITS[c as int - '0' as int] == c;
    }
  }

  lemma LowerOrDigitIff(c: char)
    ensures LowerOrDigit(c) <==> c in LETTERS || c in DIGITS
  {
    LetterIff(c);
    DigitIff(c);
  }

  /** One to 63 of the 38 characters, the first not a sign. */
  lemma ValidIdIff(id: string)
    ensures ValidId(id) <==>
            && 0 < |id| < 64
            && (forall i :: 0 <= i < |id| ==> id[i] in LETTERS || id[i] in DIGITS || (i > 0 && id[i] in "_-"))
  {
    forall i | 0 <= i < |id|
      ensures LowerOrDigit(id[i]) <==> id[i] in LETTERS || id[i] in DIGITS
    {
      LowerOrDigitIff(id[i]);
    }
    hide LowerOrDigit;
    assert forall c: char :: c in "_-" <==> c == '_' || c == '-';
    if |id| > 0 {
      assert id[0] in LETTERS || id[0] in DIGITS <==> LowerOrDigit(id[0]);
    }
  }

  predicate AllWhite(s: string) {
    forall i :: 0 <= i < |s| ==> Whitespace(s[i])
  }

  /** Trimming takes white space from both ends, and all there is. */
  lemma {:induction false} TrimIs(s: string) returns (front: string, back: string)
    ensures s == front + Trim(s) + back && AllWhite(front) && AllWhite(back)
    ensures Trim(s) != "" ==> !Whitespace(Trim(s)[0]) && !Whitespace(Trim(s)[|Trim(s)| - 1])
    decreases |s|
  {
    hide Whitespace;
    if s == "" {
      front, back := "", "";
    } else if Whitespace(s[0]) {
      front, back := TrimIs(s[1..]);
      assert s == [s[0]] + s[1..] == [s[0]] + front + Trim(s) + back;
      front := [s[0]] + front;
    } else if Whitespace(s[|s| - 1]) {
      front, back := TrimIs(s[..|s| - 1]);
      assert s == s[..|s| - 1] + [s[|s| - 1]] == front + Trim(s) + (back + [s[|s| - 1]]);
      back := back + [s[|s| - 1]];
    } else {
      front, back := "", "";
      assert s == "" + s + "";
    }
  }

  /** The bytes of a character in UTF-8 (section 3 of RFC 3629). */
  function Utf8(c: char): seq<int> {
    var n := c as int;
    if n < 0x80 then [n]
    else if n < 0x800 then [0xC0 + n / 0x40, 0x80 + n % 0x40]
    else if n < 0x1_0000 then [0xE0 + n / 0x1000, 0x80 + n / 0x40 % 0x40, 0x80 + n % 0x40]
    else [0xF0 + n / 0x4_0000, 0x80 + n / 0x1000 % 0x40, 0x80 + n / 0x40 % 0x40, 0x80 + n % 0x40]
  }

  function Utf8Text(s: string): seq<int> {
    if s == "" then [] else Utf8(s[0]) + Utf8Text(s[1..])
  }

  lemma {:induction false} Utf8LengthIs(s: string)
    ensures Utf8Length(s) == |Utf8Text(s)|
  {
    if s != "" {
      Utf8LengthIs(s[1..]);
    }
  }

  /** A name is accepted exactly when something is left of it, at most 128 bytes
      with no control character; and it is stored trimmed. */
  lemma ValidDisplayNameIff(name: string)
    ensures ValidDisplayName(name).Some? <==>
            && Trim(name) != "" && |Utf8Text(Trim(name))| <= 128
            && (forall c :: c in Trim(name) ==> !(c as int < 32 || 127 <= c as int < 160))
    ensures ValidDisplayName(name).Some? ==> ValidDisplayName(name).value == Trim(name)
  {
    Utf8LengthIs(Trim(name));
    hide Trim, Utf8Length, Utf8Text;
    var t := Trim(name);
    assert forall c: char :: Control(c) <==> c as int < 32 || 127 <= c as int < 160;
    if forall i :: 0 <= i < |t| ==> !Control(t[i]) {
      forall c | c in t
        ensures !(c as int < 32 || 127 <= c as int < 160)
      {
        var i :| 0 <= i < |t| && t[i] == c;
      }
    } else {
      var i :| 0 <= i < |t| && Control(t[i]);
      assert t[i] in t;
    }
  }

  /** The characters Unicode calls white space. */
  const WHITE_SPACE := [0x9, 0xA, 0xB, 0xC, 0xD, 0x20, 0x85, 0xA0, 0x1680,
                        0x2000, 0x2001, 0x2002, 0x2003, 0x2004, 0x2005, 0x2006, 0x2007, 0x2008, 0x2009, 0x200A,
                        0x2028, 0x2029, 0x202F, 0x205F, 0x3000]

  lemma WhitespaceIff(c: char)
    ensures Whitespace(c) <==> c as int in WHITE_SPACE
  {
  }
}
