/** Taking the user information out of URLs in log text. */
module Redaction {
  import opened Wrappers

  const MARK := "[redacted]"

  predicate Delimiter(c: char) {
    c in {'/', '?', '#', '"', '\'', ' ', '\n', '\t', ')', ']', ',', ';'}
  }

  predicate SchemeAt(s: string, i: nat) {
    i + 3 <= |s| && s[i] == ':' && s[i + 1] == '/' && s[i + 2] == '/'
  }

  /** Where the first `://` stands. */
  function Find(s: string): (i: Option<nat>)
    ensures i.Some? ==> i.value + 3 <= |s| && SchemeAt(s, i.value) && forall j :: 0 <= j < i.value ==> !SchemeAt(s, j)
    ensures i.None? ==> forall j :: 0 <= j < |s| ==> !SchemeAt(s, j)
  {
    if s == "" then None
    else if SchemeAt(s, 0) then Some(0)
    else
      assert forall j :: 0 < j < |s| ==> (SchemeAt(s, j) <==> SchemeAt(s[1..], j - 1));
      match Find(s[1..])
      case None => None
      case Some(i) => Some(i + 1)
  }

  /** The length of what comes before the first delimiter. */
  function AuthorityEnd(s: string): (n: nat)
    ensures n <= |s| && (forall i :: 0 <= i < n ==> !Delimiter(s[i])) && (n < |s| ==> Delimiter(s[n]))
  {
    if s == "" || Delimiter(s[0]) then 0 else AuthorityEnd(s[1..]) + 1
  }

  /** The last `@`. */
  function LastAt(s: string): (i: Option<nat>)
    ensures i.Some? ==> i.value < |s| && s[i.value] == '@' && forall j :: i.value < j < |s| ==> s[j] != '@'
    ensures i.None? <==> '@' !in s
  {
    if s == "" then None
    else if s[|s| - 1] == '@' then Some(|s| - 1)
    else LastAt(s[..|s| - 1])
  }

  function UserEnd(tail: string): (i: Option<nat>)
    ensures i.Some? ==> i.value < AuthorityEnd(tail) <= |tail| && tail[i.value] == '@'
  {
    LastAt(tail[..AuthorityEnd(tail)])
  }

  /** The scan: what it keeps, what it puts in the place of user information. */
  function Redacted(s: string): string
    decreases |s|
  {
    match Find(s)
    case None => s
    case Some(at) =>
      var tail := s[at + 3..];
      match UserEnd(tail)
      case Some(end) => s[..at + 3] + (MARK + Redacted(tail[end..]))
      case None => s[..at + 3] + (tail[..AuthorityEnd(tail)] + Redacted(tail[AuthorityEnd(tail)..]))
  }

  predicate Changes(s: string)
    decreases |s|
  {
    match Find(s)
    case None => false
    case Some(at) =>
      var tail := s[at + 3..];
      UserEnd(tail).Some? || Changes(tail[AuthorityEnd(tail)..])
  }

  lemma Associates(a: string, b: string, c: string, d: string)
    ensures ((a + b) + c) + d == a + (b + (c + d))
  {
  }

  lemma InThree(s: string, at: nat, end: nat)
    requires at + end <= |s|
    ensures s == s[..at] + (s[at..][..end] + s[at..][end..])
  {
  }

  lemma RedactedIs(s: string)
    requires Find(s).Some?
    ensures var (head, tail) := (s[..Find(s).value + 3], s[Find(s).value + 3..]);
            var end := if UserEnd(tail).Some? then UserEnd(tail).value else AuthorityEnd(tail);
            Redacted(s) == head + ((if UserEnd(tail).Some? then MARK else tail[..end]) + Redacted(tail[end..]))
  {
    hide Find, AuthorityEnd, LastAt, UserEnd;
  }

  /** One round of the scan, with what was put out before it. */
  lemma ScanStep(out: string, rest: string)
    requires Find(rest).Some?
    ensures var at := Find(rest).value;
            var (head, tail) := (rest[..at + 3], rest[at + 3..]);
            var end := AuthorityEnd(tail);
            && (UserEnd(tail).Some? ==>
                  && ((out + head) + MARK) + Redacted(tail[UserEnd(tail).value..]) == out + Redacted(rest)
                  && Changes(rest))
            && (UserEnd(tail).None? ==>
                  && (Changes(rest) <==> Changes(tail[end..]))
                  && ((out + head) + tail[..end]) + Redacted(tail[end..]) == out + Redacted(rest)
                  && ((out + head) + tail[..end]) + tail[end..] == out + rest)
  {
    hide *;
    RedactedIs(rest);
    ChangesIs(rest);
    var at := Find(rest).value;
    var head, tail := rest[..at + 3], rest[at + 3..];
    var end := AuthorityEnd(tail);
    if UserEnd(tail).Some? {
      Associates(out, head, MARK, Redacted(tail[UserEnd(tail).value..]));
    } else {
      Associates(out, head, tail[..end], Redacted(tail[end..]));
      Associates(out, head, tail[..end], tail[end..]);
      InThree(rest, at + 3, end);
    }
  }

  lemma UserEndIs(tail: string)
    ensures UserEnd(tail) == LastAt(tail[..AuthorityEnd(tail)])
  {
  }

  lemma NothingScanned(s: string)
    requires Find(s).None?
    ensures Redacted(s) == s && !Changes(s)
  {
  }

  method RedactUserInfo(text: string) returns (redacted: string, changed: bool)
    ensures redacted == Redacted(text)
    ensures changed <==> Changes(text)
  {
    var out, rest := "", text;
    changed := false;
    hide *;
    assert "" + Redacted(text) == Redacted(text) && "" + text == text;
    while Find(rest).Some?
      invariant out + Redacted(rest) == Redacted(text)
      invariant changed || Changes(rest) <==> Changes(text)
      invariant !changed ==> out + rest == text
      decreases |rest|
    {
      ScanStep(out, rest);
      var at := Find(rest).value;
      var head, tail := rest[..at + 3], rest[at + 3..];
      out := out + head;
      var end := AuthorityEnd(tail);
      var userEnd := LastAt(tail[..end]);
      UserEndIs(tail);
      if userEnd.Some? {
        out := out + MARK;
        rest := tail[userEnd.value..];
        changed := true;
      } else {
        out := out + tail[..end];
        rest := tail[end..];
      }
    }
    NothingScanned(rest);
    redacted := if changed then out + rest else text;
  }

  lemma {:induction false} UnchangedIsKept(s: string)
    requires !Changes(s)
    ensures Redacted(s) == s
    decreases |s|
  {
    if Find(s).Some? {
      var at := Find(s).value;
      var tail := s[at + 3..];
      var end := AuthorityEnd(tail);
      UnchangedIsKept(tail[end..]);
      InThree(s, at + 3, end);
    }
  }

  /** A change is reported exactly when the text differs. */
  lemma {:induction false} ReportsIffDifferent(s: string)
    ensures Changes(s) <==> Redacted(s) != s
    decreases |s|
  {
    if !Changes(s) {
      UnchangedIsKept(s);
    } else {
      var at := Find(s).value;
      var tail := s[at + 3..];
      var end := AuthorityEnd(tail);
      assert s[..at + 3] + tail == s;
      if UserEnd(tail).Some? {
        // the replacement has a delimiter where the authority had none
        var r := Redacted(s);
        assert r[at + 3..] == MARK + Redacted(tail[UserEnd(tail).value..]);
        if r == s {
          assert tail == MARK + Redacted(tail[UserEnd(tail).value..]);
          MarkEndsAuthority(tail, Redacted(tail[UserEnd(tail).value..]));
        }
      } else {
        ReportsIffDifferent(tail[end..]);
        var r := Redacted(s);
        assert r[at + 3..][end..] == Redacted(tail[end..]);
        assert s[at + 3..][end..] == tail[end..];
      }
    }
  }

  lemma MarkEndsAuthority(s: string, after: string)
    requires s == MARK + after
    ensures AuthorityEnd(s) == 9 && UserEnd(s).None?
  {
    assert s[9] == ']' && Delimiter(s[9]);
    assert forall i :: 0 <= i < 9 ==> s[i] == MARK[i] && !Delimiter(s[i]) && s[i] != '@';
  }

  // ---------------------------------------------------------------- a second time

  lemma FindIs(s: string, at: nat)
    requires SchemeAt(s, at) && forall j :: 0 <= j < at ==> !SchemeAt(s, j)
    ensures Find(s) == Some(at)
  {
    var found := Find(s);
    assert found.Some? ==> found.value == at;
  }

  lemma AuthorityIs(s: string, n: nat)
    requires n <= |s| && (forall i :: 0 <= i < n ==> !Delimiter(s[i])) && (n < |s| ==> Delimiter(s[n]))
    ensures AuthorityEnd(s) == n
  {
  }

  /** The first `://` of a text still stands first when what follows it changes. */
  lemma HeadStays(s: string, after: string)
    requires Find(s).Some?
    ensures Find(s[..Find(s).value + 3] + after) == Find(s)
    ensures (s[..Find(s).value + 3] + after)[Find(s).value + 3..] == after
  {
    var at := Find(s).value;
    var r := s[..at + 3] + after;
    forall j | 0 <= j < at
      ensures !SchemeAt(r, j)
    {
      assert !SchemeAt(s, j);
    }
    FindIs(r, at);
  }

  lemma LeadingCharacter(c: char, s: string)
    requires c != ':'
    ensures Changes([c] + s) <==> Changes(s)
  {
    var r := [c] + s;
    assert forall j :: 0 < j < |r| ==> (SchemeAt(r, j) <==> SchemeAt(s, j - 1));
    assert !SchemeAt(r, 0);
    match Find(s)
    case None => assert Find(r).None?;
    case Some(at) =>
      FindIs(r, at + 1);
      assert r[at + 1 + 3..] == s[at + 3..];
  }

  /** Up to and with its first `://` a text is kept. */
  lemma StartIsKept(s: string)
    ensures |Redacted(s)| >= (if Find(s).Some? then Find(s).value + 3 else |s|)
    ensures var n := if Find(s).Some? then Find(s).value + 3 else |s|; Redacted(s)[..n] == s[..n]
    ensures s == "" <==> Redacted(s) == ""
  {
  }

  lemma MarkedLeavesNothing(s: string, x: string)
    requires Find(s).Some? && !Changes(x)
    ensures !Changes(s[..Find(s).value + 3] + (MARK + x))
  {
    HeadStays(s, MARK + x);
    MarkEndsAuthority(MARK + x, x);
    assert (MARK + x)[9..] == [']'] + x;
    LeadingCharacter(']', x);
  }

  lemma KeptLeavesNothing(s: string, x: string)
    requires Find(s).Some? && !Changes(x)
    requires var tail := s[Find(s).value + 3..];
             var n := AuthorityEnd(tail);
             UserEnd(tail).None? && (tail[n..] == "" <==> x == "") && (x != "" ==> x[0] == tail[n])
    ensures var tail := s[Find(s).value + 3..];
            !Changes(s[..Find(s).value + 3] + (tail[..AuthorityEnd(tail)] + x))
  {
    hide *;
    var tail := s[Find(s).value + 3..];
    var n := AuthorityEnd(tail);
    HeadStays(s, tail[..n] + x);
    AuthorityStays(tail, n, x);
    ChangesIs(s[..Find(s).value + 3] + (tail[..n] + x));
  }

  lemma ChangesIs(s: string)
    requires Find(s).Some?
    ensures var tail := s[Find(s).value + 3..]; Changes(s) <==> UserEnd(tail).Some? || Changes(tail[AuthorityEnd(tail)..])
  {
    hide Find, AuthorityEnd, LastAt, UserEnd;
  }

  /** What is redacted has nothing left to redact. */
  lemma {:induction false} NothingLeftToRedact(s: string)
    ensures !Changes(Redacted(s))
    decreases |s|
  {
    if Find(s).Some? {
      var tail := s[Find(s).value + 3..];
      if UserEnd(tail).Some? {
        NothingLeftToRedact(tail[UserEnd(tail).value..]);
        MarkedLeavesNothing(s, Redacted(tail[UserEnd(tail).value..]));
      } else {
        var rest := tail[AuthorityEnd(tail)..];
        NothingLeftToRedact(rest);
        StartIsKept(rest);
        KeptLeavesNothing(s, Redacted(rest));
      }
    }
  }

  lemma AuthorityStays(tail: string, n: nat, x: string)
    requires n == AuthorityEnd(tail) && (tail[n..] == "" <==> x == "") && (x != "" ==> x[0] == tail[n])
    ensures var later := tail[..n] + x;
            AuthorityEnd(later) == n && later[n..] == x && later[..n] == tail[..n] && UserEnd(later) == UserEnd(tail)
  {
    var later := tail[..n] + x;
    AuthorityIs(later, n);
    assert later[..n] == tail[..n];
  }

  /** Redacting twice is redacting once. */
  lemma RedactionIsIdempotent(s: string)
    ensures Redacted(Redacted(s)) == Redacted(s)
  {
    NothingLeftToRedact(s);
    UnchangedIsKept(Redacted(s));
  }

  // ---------------------------------------------------------------- what is replaced

  /** A stretch of the text: kept as it is, or user information. */
  datatype Piece = Kept(text: string) | User(text: string)

  function Pieces(s: string): seq<Piece>
    decreases |s|
  {
    match Find(s)
    case None => [Kept(s)]
    case Some(at) =>
      var tail := s[at + 3..];
      match UserEnd(tail)
      case Some(end) => [Kept(s[..at + 3]), User(tail[..end])] + Pieces(tail[end..])
      case None => [Kept(s[..at + 3]), Kept(tail[..AuthorityEnd(tail)])] + Pieces(tail[AuthorityEnd(tail)..])
  }

  function Joined(pieces: seq<Piece>, mark: Option<string>): string {
    if pieces == [] then ""
    else (if pieces[0].User? && mark.Some? then mark.value else pieces[0].text) + Joined(pieces[1..], mark)
  }

  /** User information follows a `://`, is followed by an `@`, and has no delimiter in it. */
  ghost predicate UserInfoAt(pieces: seq<Piece>, i: nat)
    requires i < |pieces|
  {
    && 0 < i < |pieces| - 1 && pieces[i - 1].Kept? && pieces[i + 1].Kept?
    && |pieces[i - 1].text| >= 3 && SchemeAt(pieces[i - 1].text, |pieces[i - 1].text| - 3)
    && pieces[i + 1].text != "" && pieces[i + 1].text[0] == '@'
    && forall c :: c in pieces[i].text ==> !Delimiter(c)
  }

  ghost predicate UserInfoOnly(pieces: seq<Piece>) {
    forall i :: 0 <= i < |pieces| && pieces[i].User? ==> UserInfoAt(pieces, i)
  }

  lemma JoinedTwo(p: Piece, q: Piece, rest: seq<Piece>, mark: Option<string>)
    ensures Joined([p, q] + rest, mark) ==
            (if p.User? && mark.Some? then mark.value else p.text)
            + ((if q.User? && mark.Some? then mark.value else q.text) + Joined(rest, mark))
  {
    assert ([p, q] + rest)[1..] == [q] + rest && ([q] + rest)[1..] == rest;
  }

  lemma FirstPieceIsKept(s: string)
    ensures Pieces(s) != [] && Pieces(s)[0].Kept? && (s != "" && s[0] == '@' ==> Pieces(s)[0].text != "" && Pieces(s)[0].text[0] == '@')
  {
  }

  lemma TwoMorePieces(p: Piece, q: Piece, rest: seq<Piece>)
    requires UserInfoOnly(rest) && rest != [] && rest[0].Kept? && p.Kept?
    requires q.User? ==> UserInfoAt([p, q] + rest, 1)
    ensures UserInfoOnly([p, q] + rest)
  {
    var pieces := [p, q] + rest;
    forall i | 0 <= i < |pieces| && pieces[i].User?
      ensures UserInfoAt(pieces, i)
    {
      if i > 1 {
        assert pieces[i] == rest[i - 2] && UserInfoAt(rest, i - 2);
        assert pieces[i - 1] == rest[i - 3] && pieces[i + 1] == rest[i - 1];
      }
    }
  }

  lemma PiecesJoin(s: string, n: nat, q: Piece, after: string, rest: seq<Piece>)
    requires Find(s).Some? && Find(s).value + 3 + n <= |s|
    requires var tail := s[Find(s).value + 3..];
             q.text == tail[..n] && Joined(rest, None) == tail[n..] && Joined(rest, Some(MARK)) == after
    ensures var at := Find(s).value;
            && Joined([Kept(s[..at + 3]), q] + rest, None) == s
            && Joined([Kept(s[..at + 3]), q] + rest, Some(MARK)) == s[..at + 3] + ((if q.User? then MARK else q.text) + after)
  {
    var at := Find(s).value;
    JoinedTwo(Kept(s[..at + 3]), q, rest, None);
    JoinedTwo(Kept(s[..at + 3]), q, rest, Some(MARK));
    InThree(s, at + 3, n);
  }

  /** The redacted text is the text with user information, and nothing else,
      replaced by the mark. */
  lemma {:induction false} ReplacesUserInfoOnly(s: string)
    ensures Joined(Pieces(s), None) == s && Joined(Pieces(s), Some(MARK)) == Redacted(s)
    ensures UserInfoOnly(Pieces(s))
    decreases |s|
  {
    hide *;
    if Find(s).None? {
      OnePiece(s);
    } else {
      PiecesStep(s);
      var at := Find(s).value;
      var tail := s[at + 3..];
      var n := PieceEnd(tail);
      ReplacesUserInfoOnly(tail[n..]);
      FirstPieceIsKept(tail[n..]);
      NextPieceText(tail);
      PiecesJoin(s, n, NextPiece(tail), Redacted(tail[n..]), Pieces(tail[n..]));
      TwoMorePieces(Kept(s[..at + 3]), NextPiece(tail), Pieces(tail[n..]));
    }
  }

  lemma OnePiece(s: string)
    requires Find(s).None?
    ensures Joined(Pieces(s), None) == s && Joined(Pieces(s), Some(MARK)) == Redacted(s) && UserInfoOnly(Pieces(s))
  {
    assert s + "" == s;
  }

  lemma NextPieceText(tail: string)
    ensures NextPiece(tail).text == tail[..PieceEnd(tail)]
  {
  }

  function PieceEnd(tail: string): (n: nat)
    ensures n <= |tail|
  {
    if UserEnd(tail).Some? then UserEnd(tail).value else AuthorityEnd(tail)
  }

  function NextPiece(tail: string): Piece {
    if UserEnd(tail).Some? then User(tail[..PieceEnd(tail)]) else Kept(tail[..PieceEnd(tail)])
  }

  lemma PiecesStep(s: string)
    requires Find(s).Some?
    ensures var at := Find(s).value;
            var (tail, rest) := (s[at + 3..], s[at + 3..][PieceEnd(s[at + 3..])..]);
            var q := NextPiece(tail);
            && Pieces(s) == [Kept(s[..at + 3]), q] + Pieces(rest)
            && Redacted(s) == s[..at + 3] + ((if q.User? then MARK else q.text) + Redacted(rest))
            && (q.User? ==> UserInfoAt([Kept(s[..at + 3]), q] + Pieces(rest), 1))
  {
    hide *;
    RedactedIs(s);
    PiecesIs(s);
    var tail := s[Find(s).value + 3..];
    NextPieceIs(tail);
    if UserEnd(tail).Some? {
      UserPiece(s);
    }
  }

  lemma PiecesIs(s: string)
    requires Find(s).Some?
    ensures var (head, tail) := (s[..Find(s).value + 3], s[Find(s).value + 3..]);
            var end := if UserEnd(tail).Some? then UserEnd(tail).value else AuthorityEnd(tail);
            Pieces(s) == [Kept(head), if UserEnd(tail).Some? then User(tail[..end]) else Kept(tail[..end])] + Pieces(tail[end..])
  {
    hide Find, AuthorityEnd, LastAt, UserEnd;
  }

  lemma NextPieceIs(tail: string)
    ensures var end := if UserEnd(tail).Some? then UserEnd(tail).value else AuthorityEnd(tail);
            && PieceEnd(tail) == end
            && NextPiece(tail) == if UserEnd(tail).Some? then User(tail[..end]) else Kept(tail[..end])
  {
    hide UserEnd, AuthorityEnd;
  }

  lemma UserPiece(s: string)
    requires Find(s).Some? && UserEnd(s[Find(s).value + 3..]).Some?
    ensures var at := Find(s).value;
            var (tail, end) := (s[at + 3..], UserEnd(s[at + 3..]).value);
            UserInfoAt([Kept(s[..at + 3]), User(tail[..end])] + Pieces(tail[end..]), 1)
  {
    hide Pieces, Find, AuthorityEnd, LastAt, UserEnd;
    var at := Find(s).value;
    var tail := s[at + 3..];
    var end := UserEnd(tail).value;
    var rest := Pieces(tail[end..]);
    FirstPieceIsKept(tail[end..]);
    assert tail[end..] != "" && tail[end..][0] == '@';
    assert ([Kept(s[..at + 3]), User(tail[..end])] + rest)[2] == rest[0];
    assert SchemeAt(s[..at + 3], at);
  }

  /** An authority ends at the first of these twelve characters, or with the text. */
  lemma AuthorityEndsAt(s: string, n: nat)
    ensures AuthorityEnd(s) == n <==>
            && n <= |s| && (forall i :: 0 <= i < n ==> s[i] !in "/?#\"' \n\t)],;")
            && (n < |s| ==> s[n] in "/?#\"' \n\t)],;")
  {
    DelimitersAre();
  }

  lemma DelimitersAre()
    ensures forall c: char :: Delimiter(c) <==> c in "/?#\"' \n\t)],;"
  {
  }

  // ---------------------------------------------------------------- what the scan does not see

  /** No `://` anywhere is followed by an authority with an `@` in it. */
  ghost predicate Clean(s: string) {
    forall i: nat :: SchemeAt(s, i) ==> UserEnd(s[i + 3..]).None?
  }

  /** The colon of a `://` ends an authority without an `@`, which the scan has
      just passed over; and user information follows. */
  predicate Overlooks(s: string)
    decreases |s|
  {
    match Find(s)
    case None => false
    case Some(at) =>
      var tail := s[at + 3..];
      match UserEnd(tail)
      case Some(end) => Overlooks(tail[end..])
      case None =>
        var n := AuthorityEnd(tail);
        Hides(tail[..n], tail[n..]) || Overlooks(tail[n..])
  }

  predicate Hides(authority: string, rest: string) {
    authority != "" && authority[|authority| - 1] == ':' && "//" <= rest && UserEnd(rest[2..]).Some?
  }

  /** User information the scan does not see. */
  lemma PassedOver()
    ensures Overlooks("://://u@h") && Redacted("://://u@h") == "://://u@h"
  {
    hide *;
    var s, tail, rest := "://://u@h", "://u@h", "//u@h";
    ColonAuthority();
    HiddenUser();
    OverlooksIs(s);
    ChangesIs(s);
    RestIsPlain();
    assert s[3..] == tail && tail[1..] == rest && tail[..1] == ":";
    UnchangedIsKept(s);
  }

  lemma ColonAuthority()
    ensures Find("://://u@h") == Some(0) && UserEnd("://u@h").None? && AuthorityEnd("://u@h") == 1
  {
    FindIs("://://u@h", 0);
    AuthorityIs("://u@h", 1);
    assert "://u@h"[..1] == ":";
  }

  lemma HiddenUser()
    ensures Hides(":", "//u@h")
  {
    AuthorityIs("u@h", 3);
    assert "//u@h"[2..] == "u@h" && "u@h"[..3] == "u@h" && "u@h"[1] == '@';
  }

  lemma RestIsPlain()
    ensures !Changes("//u@h")
  {
    assert Find("//u@h").None?;
  }

  lemma SchemeShifts(a: string, b: string, i: nat)
    requires i >= |a|
    ensures SchemeAt(a + b, i) <==> SchemeAt(b, i - |a|)
    ensures SchemeAt(a + b, i) ==> (a + b)[i + 3..] == b[i - |a| + 3..]
  {
  }

  /** A text after a prefix no `://` can begin in. */
  lemma CleanAfter(a: string, b: string)
    requires forall i :: 0 <= i < |a| ==> !SchemeAt(a + b, i)
    ensures Clean(a + b) <==> Clean(b)
  {
    hide UserEnd;
    var whole := a + b;
    if Clean(whole) {
      forall i: nat | SchemeAt(b, i)
        ensures UserEnd(b[i + 3..]).None?
      {
        SchemeBehind(a, b, i);
        assert SchemeAt(whole, i + |a|);
      }
    } else {
      var i: nat :| SchemeAt(whole, i) && UserEnd(whole[i + 3..]).Some?;
      SchemeBehind(a, b, i - |a|);
      assert SchemeAt(b, i - |a|);
    }
  }

  /** The prefix up to a `://` contributes that one `://`. */
  lemma CleanHead(s: string, after: string)
    requires Find(s).Some?
    ensures Clean(s[..Find(s).value + 3] + after) <==> UserEnd(after).None? && Clean(after)
  {
    hide *;
    var at := Find(s).value;
    HeadCut(s, at, after);
    SlashesAreClean(after);
    var colon, rest, r := s[..at + 1], "//" + after, s[..at + 3] + after;
    if UserEnd(after).None? {
      NoneBefore(s, after, r);
      CleanButOne(colon, rest, at);
    } else {
      UncleanAt(r, at);
    }
  }

  lemma HeadCut(s: string, at: nat, after: string)
    requires Find(s) == Some(at)
    ensures var r := s[..at + 3] + after;
            r == s[..at + 1] + ("//" + after) && SchemeAt(r, at) && r[at + 3..] == after
  {
    assert s[..at + 3] == s[..at + 1] + "//";
    hide Find;
  }

  lemma SlashesAreClean(after: string)
    ensures Clean("//" + after) <==> Clean(after)
  {
    forall i | 0 <= i < 2
      ensures !SchemeAt("//" + after, i)
    {
      assert ("//" + after)[i] == '/';
    }
    hide *;
    CleanAfter("//", after);
  }

  lemma NoneBefore(s: string, after: string, r: string)
    requires Find(s).Some? && r == s[..Find(s).value + 3] + after
    ensures forall i :: 0 <= i < Find(s).value ==> !SchemeAt(r, i)
  {
    HeadStays(s, after);
    hide Find, SchemeAt;
  }

  lemma UncleanAt(s: string, i: nat)
    requires i + 3 <= |s| && SchemeAt(s, i) && UserEnd(s[i + 3..]).Some?
    ensures !Clean(s)
  {
    hide UserEnd, SchemeAt;
  }

  lemma CleanButOne(a: string, b: string, at: nat)
    requires |a| == at + 1 && (forall i :: 0 <= i < at ==> !SchemeAt(a + b, i))
    requires SchemeAt(a + b, at) && UserEnd((a + b)[at + 3..]).None?
    ensures Clean(a + b) <==> Clean(b)
  {
    hide *;
    var whole := a + b;
    if Clean(b) {
      if !Clean(whole) {
        var i := Uncleaned(whole);
        assert i != at && i >= |a|;
        SchemeBehind(a, b, i - |a|);
        UncleanAt(b, i - |a|);
      }
    } else {
      var i := Uncleaned(b);
      SchemeBehind(a, b, i);
      UncleanAt(whole, i + |a|);
    }
  }

  lemma Uncleaned(s: string) returns (i: nat)
    requires !Clean(s)
    ensures i + 3 <= |s| && SchemeAt(s, i) && UserEnd(s[i + 3..]).Some?
  {
    i :| SchemeAt(s, i) && UserEnd(s[i + 3..]).Some?;
  }

  lemma SchemeBehind(a: string, b: string, i: nat)
    ensures SchemeAt(a + b, i + |a|) <==> SchemeAt(b, i)
    ensures SchemeAt(b, i) ==> i + 3 <= |b| && (a + b)[i + |a| + 3..] == b[i + 3..]
  {
    SchemeShifts(a, b, i + |a|);
  }

  /** Behind an authority only its last colon can begin a `://`. */
  lemma CleanAuthority(authority: string, x: string)
    requires forall i :: 0 <= i < |authority| ==> !Delimiter(authority[i])
    ensures Clean(authority + x) <==> Clean(x) && !Hides(authority, x)
  {
    var r := authority + x;
    if authority == "" {
      assert r == x;
    } else {
      var last := |authority| - 1;
      forall i | 0 <= i < last
        ensures !SchemeAt(r, i)
      {
        assert r[i + 1] == authority[i + 1] && !Delimiter(r[i + 1]);
      }
      if SchemeAt(r, last) {
        assert x[0] == '/' && x[1] == '/' && x[..2] == "//" && r[last + 3..] == x[2..];
        assert Hides(authority, x) <==> UserEnd(r[last + 3..]).Some?;
        if UserEnd(x[2..]).None? {
          CleanButOne(authority, x, last);
        } else {
          assert !Clean(r);
        }
      } else {
        if "//" <= x {
          assert x[0] == "//"[0] && x[1] == "//"[1] && r[last + 1] == x[0] && r[last + 2] == x[1];
        }
        CleanAfter(authority, x);
      }
    }
  }

  /** Redaction keeps the start of a text, and with it the authority a `//` there begins. */
  lemma HiddenStaysHidden(authority: string, rest: string)
    ensures Hides(authority, Redacted(rest)) <==> Hides(authority, rest)
  {
    StartIsKept(rest);
    var r := Redacted(rest);
    if Find(rest).Some? {
      var at := Find(rest).value;
      assert r[..at + 3] == rest[..at + 3] && |rest| >= at + 3;
      hide Find, Redacted, AuthorityEnd, LastAt, UserEnd;
      SlashesAgree(rest, r, at);
    }
  }

  /** Two texts alike up to and with the first `://` of one begin with `//` alike,
      and then with the same authority. */
  lemma SlashesAgree(a: string, b: string, at: nat)
    requires at + 3 <= |a| && at + 3 <= |b| && a[..at + 3] == b[..at + 3] && SchemeAt(a, at)
    ensures "//" <= a <==> "//" <= b
    ensures "//" <= a ==> (UserEnd(a[2..]).Some? <==> UserEnd(b[2..]).Some?)
  {
    hide Find, AuthorityEnd, LastAt, UserEnd;
    assert a[..2] == a[..at + 3][..2] == b[..at + 3][..2] == b[..2];
    if "//" <= a {
      assert at >= 2 by {
        assert a[0] == '/' && a[1] == '/';
      }
      assert a[2..][..at + 1] == a[..at + 3][2..] == b[..at + 3][2..] == b[2..][..at + 1];
      SameAuthority(a[2..], b[2..], at - 2);
    }
  }

  lemma SameAuthority(a: string, b: string, at: nat)
    requires at + 3 <= |a| && at + 3 <= |b| && a[..at + 3] == b[..at + 3] && SchemeAt(a, at)
    ensures UserEnd(a).Some? <==> UserEnd(b).Some?
  {
    var n := AuthorityEnd(a);
    assert Delimiter(a[at + 1]);
    assert n <= at + 1;
    assert forall i :: 0 <= i < at + 3 ==> a[..at + 3][i] == a[i] && b[..at + 3][i] == b[i];
    AuthorityIs(b, n);
    assert a[..n] == b[..n];
  }

  lemma MarkIsClean(x: string)
    ensures UserEnd(MARK + x).None? && (Clean(MARK + x) <==> Clean(x))
  {
    MarkEndsAuthority(MARK + x, x);
    forall i | 0 <= i < |MARK|
      ensures !SchemeAt(MARK + x, i)
    {
      assert (MARK + x)[i] == MARK[i];
    }
    CleanAfter(MARK, x);
  }

  lemma CleanMarked(s: string, x: string)
    requires Find(s).Some?
    ensures Clean(s[..Find(s).value + 3] + (MARK + x)) <==> Clean(x)
  {
    CleanHead(s, MARK + x);
    MarkIsClean(x);
  }

  lemma CleanKept(s: string)
    requires Find(s).Some? && UserEnd(s[Find(s).value + 3..]).None?
    ensures var tail := s[Find(s).value + 3..];
            var n := AuthorityEnd(tail);
            var x := Redacted(tail[n..]);
            Clean(s[..Find(s).value + 3] + (tail[..n] + x)) <==> Clean(x) && !Hides(tail[..n], tail[n..])
  {
    hide *;
    var tail := s[Find(s).value + 3..];
    var n := AuthorityEnd(tail);
    CleanBehindAuthority(tail, n);
    CleanHead(s, tail[..n] + Redacted(tail[n..]));
  }

  lemma CleanBehindAuthority(tail: string, n: nat)
    requires n == AuthorityEnd(tail) && UserEnd(tail).None?
    ensures var x := Redacted(tail[n..]);
            && UserEnd(tail[..n] + x).None?
            && (Clean(tail[..n] + x) <==> Clean(x) && !Hides(tail[..n], tail[n..]))
  {
    hide Clean, Hides;
    var x := Redacted(tail[n..]);
    FirstStays(tail[n..]);
    AuthorityStays(tail, n, x);
    CleanAuthority(tail[..n], x);
    HiddenStaysHidden(tail[..n], tail[n..]);
  }

  lemma FirstStays(s: string)
    ensures (s == "" <==> Redacted(s) == "") && (s != "" ==> Redacted(s)[0] == s[0])
  {
    StartIsKept(s);
    var n := if Find(s).Some? then Find(s).value + 3 else |s|;
    assert s != "" ==> Redacted(s)[..n][0] == s[..n][0];
  }

  /** After redaction no URL anywhere in the text carries user information,
      exactly when the scan overlooked none. */
  lemma {:induction false} CleanIffNothingOverlooked(s: string)
    ensures Clean(Redacted(s)) <==> !Overlooks(s)
    decreases |s|
  {
    hide *;
    if Find(s).None? {
      NothingToOverlook(s);
    } else {
      ScanGoesOn(s);
      var tail := s[Find(s).value + 3..];
      CleanIffNothingOverlooked(tail[PieceEnd(tail)..]);
      if UserEnd(tail).Some? {
        CleanMarked(s, Redacted(tail[PieceEnd(tail)..]));
      } else {
        PieceIsAuthority(tail);
        CleanKept(s);
      }
    }
  }

  lemma PieceIsAuthority(tail: string)
    requires UserEnd(tail).None?
    ensures PieceEnd(tail) == AuthorityEnd(tail)
  {
  }

  lemma NothingToOverlook(s: string)
    requires Find(s).None?
    ensures Redacted(s) == s && Clean(s) && !Overlooks(s)
  {
  }

  lemma ScanGoesOn(s: string)
    requires Find(s).Some?
    ensures var (head, tail) := (s[..Find(s).value + 3], s[Find(s).value + 3..]);
            var (piece, rest) := (tail[..PieceEnd(tail)], tail[PieceEnd(tail)..]);
            && Redacted(s) == head + ((if UserEnd(tail).Some? then MARK else piece) + Redacted(rest))
            && (Overlooks(s) <==> Overlooks(rest) || (UserEnd(tail).None? && Hides(piece, rest)))
  {
    hide *;
    RedactedIs(s);
    OverlooksIs(s);
    NextPieceIs(s[Find(s).value + 3..]);
  }

  lemma OverlooksIs(s: string)
    requires Find(s).Some?
    ensures var tail := s[Find(s).value + 3..];
            var end := if UserEnd(tail).Some? then UserEnd(tail).value else AuthorityEnd(tail);
            Overlooks(s) <==> Overlooks(tail[end..]) || (UserEnd(tail).None? && Hides(tail[..end], tail[end..]))
  {
    hide *;
    var tail := s[Find(s).value + 3..];
    if UserEnd(tail).Some? {
      OverlooksBehindUser(s, tail);
    } else {
      OverlooksBehindAuthority(s, tail);
    }
  }

  lemma OverlooksBehindUser(s: string, tail: string)
    requires Find(s).Some? && tail == s[Find(s).value + 3..] && UserEnd(tail).Some?
    ensures Overlooks(s) <==> Overlooks(tail[UserEnd(tail).value..])
  {
    hide Find, AuthorityEnd, LastAt, UserEnd, Hides, SchemeAt, Delimiter;
  }

  lemma OverlooksBehindAuthority(s: string, tail: string)
    requires Find(s).Some? && tail == s[Find(s).value + 3..] && UserEnd(tail).None?
    ensures var n := AuthorityEnd(tail);
            Overlooks(s) <==> Overlooks(tail[n..]) || Hides(tail[..n], tail[n..])
  {
    hide Find, AuthorityEnd, LastAt, UserEnd, Hides, SchemeAt, Delimiter;
  }
}
