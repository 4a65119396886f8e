/**
  Reversing and complementing a wrapped sequence where it stands: first the line feeds are shifted to where a
  reversal will need them, then all bytes but the last are exchanged.
*/
module Revcomp {
  import opened Fasta

  const PAIRS: string := "ATCGGCTAUAMKRYWWSSYRKMVBHDDHBVNN\n\n"

  function Lower(c: char): char {
    if 'A' <= c <= 'Z' then c + ' ' else c
  }

  const COUNT: nat := 17

  function Left(i: nat): char
    requires i < COUNT
  {
    PAIRS[2 * i]
  }

  function Right(i: nat): char
    requires i < COUNT
  {
    PAIRS[2 * i + 1]
  }

  /** The last pair that has `c` on the left, in either case; characters without one get a zero byte. */
  function Lookup(c: char, k: nat): char
    requires k <= COUNT
  {
    if k == 0 then 0 as char
    else if c == Left(k - 1) || c == Lower(Left(k - 1)) then Right(k - 1)
    else Lookup(c, k - 1)
  }

  function Table(c: char): char {
    Lookup(c, COUNT)
  }

  const FROM: string := "ACBDGHKMNSRUTWVYacbdghkmnsrutwvy"
  const TO: string := "TGVHCDMKNSYAAWBRTGVHCDMKNSYAAWBR"
  const LETTERS: nat := 32

  function Letter(i: nat): char
    requires i < LETTERS
  {
    FROM[i]
  }

  function Partner(i: nat): char
    requires i < LETTERS
  {
    TO[i]
  }

  /** The other program's table: characters that are not listed stay as they are. */
  function Translate(c: char, k: nat): char
    requires k <= LETTERS
  {
    if k == 0 then c else if c == Letter(k - 1) then Partner(k - 1) else Translate(c, k - 1)
  }

  function Complement(c: char): char {
    Translate(c, LETTERS)
  }

  // ----- the two tables -----

  predicate IsBase(c: char) {
    exists i :: 0 <= i < LETTERS && Letter(i) == c
  }

  /** For each upper-case letter of the second table, its pair in the first. */
  function Place(j: nat): (i: nat)
    requires j < 16
    ensures i < 16
  {
    [0, 1, 14, 13, 2, 12, 10, 5, 15, 8, 6, 4, 3, 7, 11, 9][j]
  }

  /** The other way round. */
  function Index(i: nat): (j: nat)
    requires i < 16
    ensures j < 16
  {
    [0, 1, 4, 12, 11, 7, 10, 13, 9, 15, 6, 14, 5, 3, 2, 8][i]
  }

  lemma SameLetters(j: nat)
    requires j < 16
    ensures Left(Place(j)) == Letter(j) && Lower(Letter(j)) == Letter(j + 16)
  {
  }

  lemma SamePartners(j: nat)
    requires j < 16
    ensures Right(Place(j)) == Partner(j) == Partner(j + 16)
  {
  }

  lemma LettersAreLetters(i: nat)
    requires i < LETTERS
    ensures 'A' <= Letter(i)
  {
  }

  lemma PairPlaces(i: nat)
    requires i < 16
    ensures Letter(Index(i)) == Left(i) && Letter(Index(i) + 16) == Lower(Left(i))
  {
  }

  lemma LastPair()
    ensures Left(16) == Right(16) == '\n'
  {
  }

  lemma PairsDiffer(i: nat, j: nat)
    requires i < j < COUNT
    ensures Left(i) != Left(j) && 'A' <= Left(i) <= 'Z'
  {
  }

  lemma LettersDiffer(i: nat, j: nat)
    requires i < j < LETTERS
    ensures Letter(i) != Letter(j)
  {
  }

  lemma {:induction false} PairFound(c: char, i: nat, k: nat)
    requires i < k <= COUNT && i < 16 && (c == Left(i) || c == Lower(Left(i)))
    ensures Lookup(c, k) == Right(i)
  {
    hide Left, Right;
    if i + 1 < k {
      PairsDiffer(i, k - 1);
      if k - 1 < 16 { PairsDiffer(k - 1, 16); } else { LastPair(); }
      PairFound(c, i, k - 1);
    }
  }

  lemma {:induction false} LetterFound(c: char, i: nat, k: nat)
    requires i < k <= LETTERS && c == Letter(i)
    ensures Translate(c, k) == Partner(i)
  {
    hide Letter, Partner;
    if i + 1 < k {
      LettersDiffer(i, k - 1);
      LetterFound(c, i, k - 1);
    }
  }

  lemma Bases(c: char)
    requires IsBase(c)
    ensures Table(c) == Complement(c)
  {
    hide Left, Right, Letter, Partner, Place, Lookup, Translate;
    var i :| 0 <= i < LETTERS && Letter(i) == c;
    var j := if i < 16 then i else i - 16;
    SameLetters(j);
    SamePartners(j);
    PairFound(c, Place(j), COUNT);
    LetterFound(c, i, LETTERS);
  }

  lemma {:induction false} NoPair(c: char, k: nat)
    requires k <= COUNT && forall i :: 0 <= i < k ==> c != Left(i) && c != Lower(Left(i))
    ensures Lookup(c, k) == 0 as char
  {
    hide Left, Right;
    if k > 0 { NoPair(c, k - 1); }
  }

  lemma {:induction false} NotListed(c: char, k: nat)
    requires k <= LETTERS && !IsBase(c)
    ensures Translate(c, k) == c
  {
    hide Letter, Partner;
    if k > 0 { NotListed(c, k - 1); }
  }

  lemma LineFeeds()
    ensures Table('\n') == '\n' && Complement('\n') == '\n' && !IsBase('\n')
  {
    hide Letter, Left, Right;
    LastPair();
    forall i | 0 <= i < LETTERS ensures Letter(i) != '\n' { LettersAreLetters(i); }
    NotListed('\n', LETTERS);
  }

  /** The tables agree on the letters of the code, a line feed and a zero byte, and nowhere else. */
  lemma TablesAgree(c: char)
    ensures Table(c) == Complement(c) <==> IsBase(c) || c == '\n' || c == 0 as char
  {
    hide Left, Right, Letter, Partner, Lookup, Translate;
    LineFeeds();
    if IsBase(c) {
      Bases(c);
    } else {
      NotListed(c, LETTERS);
      if c != '\n' {
        forall i | 0 <= i < COUNT ensures c != Left(i) && c != Lower(Left(i)) {
          if i < 16 { PairPlaces(i); } else { LastPair(); }
        }
        NoPair(c, COUNT);
      }
    }
  }

  // ----- what the letters stand for -----

  /** The bases that a letter of the code stands for; U is the T of another alphabet. */
  function StandsFor(c: char): set<char> {
    match c
    case 'A' => {'A'} case 'C' => {'C'} case 'G' => {'G'} case 'T' => {'T'} case 'U' => {'T'}
    case 'R' => {'A', 'G'} case 'Y' => {'C', 'T'} case 'S' => {'C', 'G'}
    case 'W' => {'A', 'T'} case 'K' => {'G', 'T'} case 'M' => {'A', 'C'}
    case 'B' => {'C', 'G', 'T'} case 'D' => {'A', 'G', 'T'} case 'H' => {'A', 'C', 'T'} case 'V' => {'A', 'C', 'G'}
    case 'N' => {'A', 'C', 'G', 'T'}
    case _ => {}
  }

  /** A pairs with T, and C with G. */
  function Opposites(bases: set<char>): set<char> {
    (if 'A' in bases then {'T'} else {}) + (if 'C' in bases then {'G'} else {}) +
    (if 'G' in bases then {'C'} else {}) + (if 'T' in bases then {'A'} else {})
  }

  function Upper(c: char): char {
    if 'a' <= c <= 'z' then c - ' ' else c
  }

  lemma UpperLetter(i: nat)
    requires i < LETTERS
    ensures Upper(Letter(i)) == Letter(i % 16) && Partner(i) == Partner(i % 16)
  {
    hide Letter, Partner, Upper;
    LowerLetter(i % 16);
    assert i == i % 16 || i == i % 16 + 16;
  }

  lemma LowerLetter(j: nat)
    requires j < 16
    ensures Upper(Letter(j)) == Letter(j) == Upper(Letter(j + 16)) && Partner(j + 16) == Partner(j)
  {
  }

  lemma PartnerPairs(j: nat)
    requires j < 16
    ensures StandsFor(Letter(j)) != {} && StandsFor(Partner(j)) == Opposites(StandsFor(Letter(j)))
  {
  }

  /** Complementing a letter complements, one by one, the bases it stands for. */
  lemma ComplementPairs(c: char)
    requires IsBase(c)
    ensures StandsFor(Upper(c)) != {} && StandsFor(Complement(c)) == Opposites(StandsFor(Upper(c)))
  {
    hide Letter, Partner, Translate, StandsFor, Upper, Opposites;
    var i :| 0 <= i < LETTERS && Letter(i) == c;
    LetterFound(c, i, LETTERS);
    UpperLetter(i);
    PartnerPairs(i % 16);
  }

  /** Complementing twice gives the letter in upper case, except that U becomes T. */
  lemma ComplementTwice(c: char)
    requires IsBase(c)
    ensures IsBase(Complement(c))
    ensures Complement(Complement(c)) == if Upper(c) == 'U' then 'T' else Upper(c)
  {
    hide Letter, Partner, Translate, Upper, PartnerPlace;
    var i :| 0 <= i < LETTERS && Letter(i) == c;
    var j := i % 16;
    LetterFound(c, i, LETTERS);
    UpperLetter(i);
    PartnerListed(j);
    PartnerAgain(j);
    LetterFound(Partner(j), PartnerPlace(j), LETTERS);
  }

  /** Where the partner of an upper-case letter is listed itself. */
  function PartnerPlace(j: nat): (k: nat)
    requires j < 16
    ensures k < 16
  {
    [12, 4, 14, 5, 1, 3, 7, 6, 8, 9, 15, 0, 0, 13, 2, 10][j]
  }

  lemma PartnerListed(j: nat)
    requires j < 16
    ensures Letter(PartnerPlace(j)) == Partner(j)
  {
  }

  lemma PartnerAgain(j: nat)
    requires j < 16
    ensures Partner(PartnerPlace(j)) == if Letter(j) == 'U' then 'T' else Letter(j)
  {
  }

  // ----- positions in wrapped text -----

  /** How long the wrapped text is: a line feed for each line begun. */
  function WrappedLength(n: nat): nat {
    n + (n + WIDTH - 1) / WIDTH
  }

  lemma {:induction false} WrapSize(text: seq<char>)
    ensures |Wrap(text)| == WrappedLength(|text|)
  {
    if |text| >= WIDTH { WrapSize(text[WIDTH..]); }
  }

  /** The character at place `b` of line `a`. */
  lemma {:induction false} WrapAt(text: seq<char>, a: nat, b: nat)
    requires b <= WIDTH && WIDTH * a + b <= |text| && (b < WIDTH ==> WIDTH * a + b < |text|)
    ensures (WIDTH + 1) * a + b < |Wrap(text)|
    ensures Wrap(text)[(WIDTH + 1) * a + b] == if b == WIDTH then '\n' else text[WIDTH * a + b]
    decreases a
  {
    if |text| >= WIDTH && a > 0 {
      WrapAt(text[WIDTH..], a - 1, b);
    }
  }

  lemma {:induction false} WrapEnds(text: seq<char>)
    requires text != []
    ensures Wrap(text) != [] && Wrap(text)[|Wrap(text)| - 1] == '\n'
  {
    if |text| > WIDTH { WrapEnds(text[WIDTH..]); }
  }

  /** Each character replaced by `f`, the last one first. */
  function Reversed(text: seq<char>, f: char -> char): (s: seq<char>)
    ensures |s| == |text|
  {
    seq(|text|, j requires 0 <= j < |text| => f(text[|text| - 1 - j]))
  }

  function WithoutFeeds(s: seq<char>): seq<char> {
    if s == [] then [] else (if s[0] == '\n' then [] else [s[0]]) + WithoutFeeds(s[1..])
  }

  lemma {:induction false} WithoutAppend(a: seq<char>, b: seq<char>)
    ensures WithoutFeeds(a + b) == WithoutFeeds(a) + WithoutFeeds(b)
  {
    if a == [] {
      assert a + b == b;
    } else {
      assert (a + b)[1..] == a[1..] + b;
      WithoutAppend(a[1..], b);
    }
  }

  lemma {:induction false} NoFeeds(text: seq<char>)
    requires forall i :: 0 <= i < |text| ==> text[i] != '\n'
    ensures WithoutFeeds(text) == text
  {
    if text != [] { NoFeeds(text[1..]); }
  }

  lemma FirstLine(text: seq<char>) returns (line: seq<char>, rest: seq<char>)
    requires text != []
    ensures Wrap(text) == (line + ['\n']) + Wrap(rest) && text == line + rest && |rest| < |text|
  {
    if |text| < WIDTH {
      line, rest := text, [];
    } else {
      line, rest := text[..WIDTH], text[WIDTH..];
    }
  }

  /** Deleting the line feeds undoes the wrapping. */
  lemma {:induction false} WrapUndone(text: seq<char>)
    requires forall i :: 0 <= i < |text| ==> text[i] != '\n'
    ensures WithoutFeeds(Wrap(text)) == text
    decreases |text|
  {
    if text != [] {
      hide Wrap, WithoutFeeds;
      var line, rest := FirstLine(text);
      forall i | 0 <= i < |line| ensures line[i] != '\n' { assert line[i] == text[i]; }
      forall i | 0 <= i < |rest| ensures rest[i] != '\n' { assert rest[i] == text[|line| + i]; }
      WrapUndone(rest);
      WithoutAppend(line + ['\n'], Wrap(rest));
      WithoutAppend(line, ['\n']);
      NoFeeds(line);
      FeedDropped();
      assert WithoutFeeds(line + ['\n']) == line;
    }
  }

  lemma FeedDropped()
    ensures WithoutFeeds(['\n']) == []
  {
  }
}
