/** The characters of names, words and numbers, spelled out: what the tables and macros of http_parser.c take. */
module HttpClasses {
  import opened HttpTypes
  import opened HttpStep
  import opened HttpFields
  import opened HttpFraming
  import opened HttpStartLine

  // ---------- tokens ----------

  /** A token is made of the visible ASCII characters that are no separators (section 2.2 of RFC 2616). */
  lemma TokenIff(c: Octet)
    ensures IsToken(c) <==>
            '0' <= c <= '9' || 'A' <= c <= 'Z' || 'a' <= c <= 'z' || c in "!#$%&'*+-.^_`|~"
  {
  }

  /** `c` is the small letter (or other character) `l`, or the capital of it. */
  predicate SameLetter(c: Octet, l: Octet) { c == l || ('A' <= c <= 'Z' && l as int == c as int + 32) }

  /** `n` is the word `lit`, in small letters and hyphens, in any case. */
  predicate SameWord(n: seq<Octet>, lit: string) {
    |n| == |lit| && forall i :: 0 <= i < |n| ==> (lit[i] == '-' || 'a' <= lit[i] <= 'z') && SameLetter(n[i], lit[i])
  }

  lemma LetterIs(c: Octet, l: Octet)
    requires SameLetter(c, l) && (l == '-' || 'a' <= l <= 'z')
    ensures IsToken(c) && Token(c) == l && Lower(c) == l
  {
  }

  lemma {:induction false} WordIs(n: seq<Octet>, lit: string)
    requires SameWord(n, lit)
    ensures Tokens(n) && Name(n) == lit && LowerAll(n) == lit
  {
    hide IsToken, Token, Lower;
    if n != [] {
      var k := |n| - 1;
      WordIs(n[..k], lit[..k]);
      LetterIs(n[k], lit[k]);
      assert lit == lit[..k] + [lit[k]];
      forall i | 0 <= i < |n| ensures IsToken(n[i]) {
        LetterIs(n[i], lit[i]);
      }
    }
  }

  /** The names that matter are field names in any case, and are told from each other. */
  lemma NamesInAnyCase(p: Parser, n: seq<Octet>)
    ensures SameWord(n, "connection") || SameWord(n, "proxy-connection") ==>
              Tokens(n) && NameState(p, n).headerState == Connection
    ensures SameWord(n, "content-length") ==> Tokens(n) && NameState(p, n).headerState == ContentLength
    ensures SameWord(n, "transfer-encoding") ==> Tokens(n) && NameState(p, n).headerState == TransferEncoding
    ensures SameWord(n, "upgrade") ==> Tokens(n) && NameState(p, n).headerState == Upgrade
  {
    hide NameState, Name, Tokens, LowerAll;
    if SameWord(n, "connection") { NameInAnyCase(p, n, "connection"); }
    if SameWord(n, "proxy-connection") { NameInAnyCase(p, n, "proxy-connection"); }
    if SameWord(n, "content-length") { NameInAnyCase(p, n, "content-length"); }
    if SameWord(n, "transfer-encoding") { NameInAnyCase(p, n, "transfer-encoding"); }
    if SameWord(n, "upgrade") { NameInAnyCase(p, n, "upgrade"); }
  }

  lemma NameInAnyCase(p: Parser, n: seq<Octet>, lit: string)
    requires SameWord(n, lit) && lit != []
    ensures Tokens(n) && Name(n) == lit
    ensures var h := NameState(p, n).headerState;
            && (h == Connection <==> lit == "connection" || lit == "proxy-connection")
            && (h == ContentLength <==> lit == "content-length")
            && (h == TransferEncoding <==> lit == "transfer-encoding")
            && (h == Upgrade <==> lit == "upgrade")
  {
    hide NameState, Name, Tokens, LowerAll;
    WordIs(n, lit);
    NameRecognized(p, n);
  }

  /** The words of values in any case, with any spaces after them. */
  lemma WordsInAnyCase(v: seq<Octet>, lit: string)
    requires |v| >= |lit| && SameWord(v[..|lit|], lit) && forall i :: |lit| <= i < |v| ==> v[i] == ' '
    ensures Word(v, lit)
  {
    hide LowerAll;
    WordIs(v[..|lit|], lit);
  }

  // ---------- numbers ----------

  const DIGITS: string := "0123456789abcdef"
  const CAPITAL_DIGITS: string := "0123456789ABCDEF"

  /** A number as it is usually written, to a base of at most 16. */
  function NumberText(n: nat, base: nat): (s: seq<Octet>)
    requires 2 <= base <= 16
    ensures s != []
  {
    (if n < base then [] else NumberText(n / base, base)) + [DIGITS[n % base]]
  }

  lemma DigitIs(d: nat)
    requires d < 16
    ensures Unhex(DIGITS[d]) == d && Unhex(CAPITAL_DIGITS[d]) == d
    ensures d < 10 ==> IsNum(DIGITS[d]) && Digit(DIGITS[d]) == d
  {
  }

  /** A length or a number of a start line, written in decimal, is read as that number. */
  lemma {:induction false} DecimalIsRead(n: nat)
    ensures Digits(NumberText(n, 10)) && Number(NumberText(n, 10)) == n
    ensures Decimal(NumberText(n, 10)) && DecimalValue(NumberText(n, 10)) == n
  {
    hide Digit, IsNum;
    var s := NumberText(n, 10);
    DigitIs(n % 10);
    SpaceIsNoDigit();
    if n >= 10 {
      DecimalIsRead(n / 10);
      assert s[..|s| - 1] == NumberText(n / 10, 10);
    }
  }

  lemma SpaceIsNoDigit()
    ensures !IsNum(' ')
  {
  }

  /** A chunk size, written in hexadecimal, is read as that number; capitals are the same digits. */
  lemma {:induction false} HexIsRead(n: nat)
    ensures HexDigits(NumberText(n, 16)) && HexValue(NumberText(n, 16)) == n
  {
    hide Unhex;
    var s := NumberText(n, 16);
    DigitIs(n % 16);
    if n >= 16 {
      HexIsRead(n / 16);
      assert s[..|s| - 1] == NumberText(n / 16, 16);
    }
  }

  /** The bytes that the table of hex digits takes. */
  lemma UnhexIff(c: Octet)
    ensures Unhex(c) != -1 <==> '0' <= c <= '9' || 'a' <= c <= 'f' || 'A' <= c <= 'F' || c as int >= 128
    ensures c as int >= 128 ==> Unhex(c) == 0
  {
  }

  // ---------- limits ----------

  lemma Limits()
    ensures ULLONG_MAX == 18446744073709551615 && MAX_HEADER_SIZE == 81920
    ensures MAX_DECIMAL == 18446744073709551609 && MAX_HEX == 18446744073709551599
  {
  }
}
