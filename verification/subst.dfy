/** The replacement text of bulk rename: groups of the match, and characters. */
module Substitution {
  /** Where a group of the match starts and ends; `start` is -1 if it took no part. */
  datatype Span = Span(start: int, end: int)

  datatype Piece = Character(c: char) | Group(k: nat)

  const MAX_SUBS: nat := 10

  predicate IsDigit(c: char) {
    '0' <= c <= '9'
  }

  ghost predicate ValidMatch(old_: string, match_: seq<Span>) {
    && |match_| == MAX_SUBS && match_[0].start != -1
    && forall k :: 0 <= k < MAX_SUBS && match_[k].start != -1 ==> 0 <= match_[k].start <= match_[k].end <= |old_|
  }

  ghost predicate Valid(pieces: seq<Piece>) {
    forall p :: p in pieces && p.Group? ==> p.k < MAX_SUBS
  }

  /**
   * How the text is read: a backslash makes a group of a digit and a plain character of
   * anything else; alone at the end it stands for itself.
   */
  function Pieces(with_: string): (pieces: seq<Piece>)
    ensures Valid(pieces)
    decreases |with_|
  {
    if with_ == "" then []
    else if with_[0] == '\\' && |with_| > 1 then
      [if IsDigit(with_[1]) then Group(with_[1] as int - '0' as int) else Character(with_[1])] + Pieces(with_[2..])
    else [Character(with_[0])] + Pieces(with_[1..])
  }

  function Rendered(piece: Piece, old_: string, match_: seq<Span>): string
    requires ValidMatch(old_, match_) && (piece.Group? ==> piece.k < MAX_SUBS)
  {
    if piece.Character? then [piece.c]
    else if match_[piece.k].start == -1 then ""
    else old_[match_[piece.k].start..match_[piece.k].end]
  }

  function Expanded(pieces: seq<Piece>, old_: string, match_: seq<Span>): string
    requires ValidMatch(old_, match_) && Valid(pieces)
  {
    if pieces == [] then "" else Rendered(pieces[0], old_, match_) + Expanded(pieces[1..], old_, match_)
  }

  function WrittenPiece(piece: Piece): string
    requires piece.Group? ==> piece.k < MAX_SUBS
  {
    if piece.Group? then ['\\', '0' + piece.k as char]
    else if piece.c == '\\' then ['\\', '\\']
    else [piece.c]
  }

  /** How to write pieces down. */
  function Written(pieces: seq<Piece>): string
    requires Valid(pieces)
  {
    if pieces == [] then "" else WrittenPiece(pieces[0]) + Written(pieces[1..])
  }

  /** Whatever is to be put in can be written, and is read back as meant. */
  lemma {:induction false} WrittenIsRead(pieces: seq<Piece>)
    requires Valid(pieces)
    ensures Pieces(Written(pieces)) == pieces
  {
    if pieces != [] {
      WrittenIsRead(pieces[1..]);
      assert Written(pieces)[|WrittenPiece(pieces[0])|..] == Written(pieces[1..]);
    }
  }

  lemma PiecesOfRest(with_: string, i: nat, old_: string, match_: seq<Span>)
    requires ValidMatch(old_, match_) && i < |with_|
    ensures var next := i + if with_[i] == '\\' && i + 1 < |with_| then 2 else 1;
            Expanded(Pieces(with_[i..]), old_, match_) ==
            Rendered(Pieces(with_[i..])[0], old_, match_) + Expanded(Pieces(with_[next..]), old_, match_)
  {
    assert with_[i..][1..] == with_[i + 1..];
    if i + 1 < |with_| {
      assert with_[i..][2..] == with_[i + 2..];
    }
  }

  /** The next piece. */
  method Expand(old_: string, match_: seq<Span>, with_: string, i: nat) returns (text: string, next: nat)
    requires ValidMatch(old_, match_) && i < |with_|
    ensures text == Rendered(Pieces(with_[i..])[0], old_, match_)
    ensures next == i + if with_[i] == '\\' && i + 1 < |with_| then 2 else 1
  {
    text, next := "", i;
    if with_[next] == '\\' && next + 1 < |with_| {
      next := next + 1;
      if '0' <= with_[next] && with_[next] as int - '0' as int < MAX_SUBS {
        var subpat := with_[next] as int - '0' as int;
        if match_[subpat].start != -1 {
          text := old_[match_[subpat].start..match_[subpat].end];
        }
      } else {
        text := [with_[next]];
      }
    } else {
      text := [with_[next]];
    }
    next := next + 1;
  }

  lemma Regroup(a: string, b: string, c: string)
    ensures a + (b + c) == (a + b) + c
  {
  }

  /** One match replaced: the text before it, the replacement, the text after it. */
  method Subst(old_: string, match_: seq<Span>, with_: string) returns (new_: string)
    requires ValidMatch(old_, match_)
    ensures new_ == old_[..match_[0].start] + Expanded(Pieces(with_), old_, match_) + old_[match_[0].end..]
  {
    new_ := old_[..match_[0].start];
    ghost var result := new_ + Expanded(Pieces(with_), old_, match_);
    var i := 0;
    assert with_[0..] == with_;
    while i < |with_|
      invariant 0 <= i <= |with_| && result == new_ + Expanded(Pieces(with_[i..]), old_, match_)
    {
      PiecesOfRest(with_, i, old_, match_);
      var text, next := Expand(old_, match_, with_, i);
      Regroup(new_, text, Expanded(Pieces(with_[next..]), old_, match_));
      new_ := new_ + text;
      i := next;
    }
    new_ := new_ + old_[match_[0].end..];
  }

  /** What is put in for one text after another is put in one after the other. */
  lemma {:induction false} PiecesJoin(a: seq<Piece>, b: seq<Piece>, old_: string, match_: seq<Span>)
    requires ValidMatch(old_, match_) && Valid(a) && Valid(b)
    ensures Valid(a + b) && Expanded(a + b, old_, match_) == Expanded(a, old_, match_) + Expanded(b, old_, match_)
  {
    if a == [] {
      assert a + b == b;
    } else {
      assert (a + b)[0] == a[0] && (a + b)[1..] == a[1..] + b;
      PiecesJoin(a[1..], b, old_, match_);
      Regroup(Rendered(a[0], old_, match_), Expanded(a[1..], old_, match_), Expanded(b, old_, match_));
    }
  }

  /** A backslash and a digit stand for what that group of the match has taken, if it took part. */
  lemma GroupIsItsText(old_: string, match_: seq<Span>, k: nat)
    requires ValidMatch(old_, match_) && k < 10
    ensures Pieces(['\\', '0' + k as char]) == [Group(k)]
    ensures match_[k].start != -1 ==> Expanded([Group(k)], old_, match_) == old_[match_[k].start..match_[k].end]
    ensures match_[k].start == -1 ==> Expanded([Group(k)], old_, match_) == ""
  {
    var with_ := ['\\', '0' + k as char];
    assert with_[2..] == "" && [Group(k)][1..] == [];
  }

  /** Anything else stands for itself, and so does what follows a backslash. */
  lemma CharacterIsItself(old_: string, match_: seq<Span>, c: char)
    requires ValidMatch(old_, match_)
    ensures Pieces([c]) == [Character(c)] && Expanded([Character(c)], old_, match_) == [c]
    ensures !('0' <= c <= '9') ==> Pieces(['\\', c]) == [Character(c)]
  {
    assert [c][1..] == "" && ['\\', c][2..] == "" && [Character(c)][1..] == [];
  }

  /** Putting the whole match back leaves the name as it was. */
  lemma WholeMatchIsIdentity(old_: string, match_: seq<Span>)
    requires ValidMatch(old_, match_)
    ensures Pieces("\\0") == [Group(0)]
    ensures old_[..match_[0].start] + Expanded([Group(0)], old_, match_) + old_[match_[0].end..] == old_
  {
    assert "\\0"[2..] == "";
    assert [Group(0)][1..] == [];
  }
}
