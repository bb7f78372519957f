/** prepareResponse: the line sent back to the server, the move written as a JSON
    array of two integers (or JSON null when there is no move) and a newline. */
module Response {
  import opened BoardModel

  /** The character of a decimal digit. */
  function DigitChar(d: nat): (c: char)
    requires d < 10
    ensures '0' <= c <= '9' && (c - '0') as int == d
  {
    ['0', '1', '2', '3', '4', '5', '6', '7', '8', '9'][d]
  }

  /** Every character is a decimal digit. */
  predicate AllDigits(s: string)
  {
    forall i :: 0 <= i < |s| ==> '0' <= s[i] <= '9'
  }

  /** The decimal digits of n, most significant first, without leading zeros. */
  function Digits(n: nat): (s: string)
    ensures |s| >= 1 && AllDigits(s)
    ensures n < 10 <==> |s| == 1
    ensures |s| > 1 ==> s[0] != '0'
  {
    if n < 10 then [DigitChar(n)] else Digits(n / 10) + [DigitChar(n % 10)]
  }

  /** The number a string of decimal digits denotes. */
  function DigitsValue(s: string): nat
    requires AllDigits(s)
  {
    if |s| == 0 then 0 else DigitsValue(s[..|s| - 1]) * 10 + (s[|s| - 1] - '0') as int
  }

  /** Reading back the digits of n gives n. */
  lemma {:induction false} DigitsRoundTrip(n: nat)
    ensures DigitsValue(Digits(n)) == n
  {
    if n >= 10 {
      var s := Digits(n);
      assert s[..|s| - 1] == Digits(n / 10);
      DigitsRoundTrip(n / 10);
    }
  }

  /** JSON.stringify of an integer: its decimal digits, after a minus sign when negative. */
  function IntText(n: int): (s: string)
    ensures |s| >= 1 && ',' !in s && ']' !in s
    ensures 0 <= n < 10 ==> |s| == 1
  {
    if n < 0 then "-" + Digits(-n) else Digits(n)
  }

  /** Reads an integer written by IntText, if the text is one. */
  function ParseInt(s: string): Option<int>
  {
    if |s| >= 2 && s[0] == '-' && AllDigits(s[1..]) then Some(-(DigitsValue(s[1..]) as int))
    else if |s| >= 1 && AllDigits(s) then Some(DigitsValue(s))
    else None
  }

  /** A minus sign and digits read as the negated number of the digits. */
  lemma ParseNegative(t: string)
    requires |t| >= 1 && AllDigits(t)
    ensures ParseInt("-" + t) == Some(-(DigitsValue(t) as int))
  {
    assert ("-" + t)[1..] == t;
  }

  /** Digits alone read as their number. */
  lemma ParseNonNegative(t: string)
    requires |t| >= 1 && AllDigits(t)
    ensures ParseInt(t) == Some(DigitsValue(t))
  {
    assert t[0] != '-';
  }

  /** Reading back the text of a negative n gives n. */
  lemma NegativeTextRoundTrip(n: int)
    requires n < 0
    ensures ParseInt(IntText(n)) == Some(n)
  {
    var m: nat := -n;
    DigitsRoundTrip(m);
    assert IntText(n) == "-" + Digits(m);
    ParseNegative(Digits(m));
  }

  /** Reading back the text of a non-negative n gives n. */
  lemma NonNegativeTextRoundTrip(n: int)
    requires n >= 0
    ensures ParseInt(IntText(n)) == Some(n)
  {
    var m: nat := n;
    DigitsRoundTrip(m);
    assert IntText(n) == Digits(m);
    ParseNonNegative(Digits(m));
  }

  /** Reading back the text of n gives n. */
  lemma IntTextRoundTrip(n: int)
    ensures ParseInt(IntText(n)) == Some(n)
  {
    if n < 0 {
      NegativeTextRoundTrip(n);
    } else {
      NonNegativeTextRoundTrip(n);
    }
  }

  /** prepareResponse: JSON.stringify of the move followed by a newline. */
  function PrepareResponse(move: Option<Pos>): (s: string)
    ensures |s| >= 1 && s[|s| - 1] == '\n'
  {
    match move
    case None => "null\n"
    case Some(p) => "[" + IntText(p.r) + "," + IntText(p.c) + "]\n"
  }

  /** The index of the first comma of s, or |s| when there is none. */
  function CommaAt(s: string): (k: nat)
    ensures k <= |s|
    ensures forall i :: 0 <= i < k ==> s[i] != ','
    ensures k < |s| ==> s[k] == ','
  {
    if |s| == 0 then 0
    else if s[0] == ',' then 0
    else 1 + CommaAt(s[1..])
  }

  /** Reads a response line back into the move it encodes; None when the line is not
      one that prepareResponse writes. */
  function ParseResponse(s: string): Option<Option<Pos>>
  {
    if s == "null\n" then Some(None)
    else if |s| >= 3 && s[0] == '[' && s[|s| - 2..] == "]\n" then
      var body := s[1..|s| - 2];
      var k := CommaAt(body);
      if k < |body| then
        match (ParseInt(body[..k]), ParseInt(body[k + 1..]))
        case (Some(r), Some(c)) => Some(Some(Pos(r, c)))
        case _ => None
      else None
    else None
  }

  /** The comma of "x,y" is the first one when x has none. */
  lemma {:induction false} CommaAfter(x: string, y: string)
    requires ',' !in x
    ensures CommaAt(x + "," + y) == |x|
  {
    if |x| > 0 {
      assert (x + "," + y)[1..] == x[1..] + "," + y;
      assert ',' !in x[1..] by {
        forall i | 0 <= i < |x[1..]| ensures x[1..][i] != ',' {
          assert x[1..][i] == x[i + 1];
        }
      }
      CommaAfter(x[1..], y);
    }
  }

  /** A bracketed pair of integer texts, the first without a comma, reads as that pair. */
  lemma ParseBracketed(x: string, y: string, r: int, c: int)
    requires ',' !in x && ParseInt(x) == Some(r) && ParseInt(y) == Some(c)
    ensures ParseResponse("[" + x + "," + y + "]\n") == Some(Some(Pos(r, c)))
  {
    var s := "[" + x + "," + y + "]\n";
    var body := s[1..|s| - 2];
    assert body == x + "," + y;
    assert s[|s| - 2..] == "]\n";
    assert s[0] != "null\n"[0];
    CommaAfter(x, y);
    assert body[..|x|] == x;
    assert body[|x| + 1..] == y;
  }

  /** The response encodes the move: reading the line back gives it again. */
  lemma ResponseRoundTrip(move: Option<Pos>)
    ensures ParseResponse(PrepareResponse(move)) == Some(move)
  {
    if move.Some? {
      var p := move.value;
      IntTextRoundTrip(p.r);
      IntTextRoundTrip(p.c);
      ParseBracketed(IntText(p.r), IntText(p.c), p.r, p.c);
    }
  }

  /** A move on the board is written as exactly "[r,c]" and a newline: six characters. */
  lemma BoardMoveResponse(p: Pos)
    requires InBounds(p)
    ensures PrepareResponse(Some(p)) == ['[', DigitChar(p.r), ',', DigitChar(p.c), ']', '\n']
  {
  }

  /** The move [2, 3] is written as "[2,3]" and a newline. */
  lemma ResponseForTwoThree()
    ensures PrepareResponse(Some(Pos(2, 3))) == "[2,3]\n"
  {
    BoardMoveResponse(Pos(2, 3));
  }
}
