/*
 * A phone number kept as its string, such as "292-1234" or "CAT-DOGS".
 * hashCode adds up what each character stands for on a telephone keypad:
 * a digit its value, a letter (in either case) the digit of its key, and
 * anything else, the dash included, nothing.
 */
module PhoneNumbers {
  import opened JavaInts
  import opened Folds

  /** mapLetter: the keypad digit of an upper-case letter, by comparing with the last letter of each key. */
  function MapLetter(c: char): (d: int)
    ensures 2 <= d <= 9
  {
    if c <= 'C' then 2
    else if c <= 'F' then 3
    else if c <= 'I' then 4
    else if c <= 'L' then 5
    else if c <= 'O' then 6
    else if c <= 'S' then 7
    else if c <= 'V' then 8
    else 9
  }

  /** The letters printed on the keys 2 to 9. */
  const Keypad: seq<string> := ["ABC", "DEF", "GHI", "JKL", "MNO", "PQRS", "TUV", "WXYZ"]

  /** mapLetter sends each letter to the key it is printed on, and nowhere else. */
  lemma MapLetterIsKeypad(c: char, d: int)
    requires 'A' <= c <= 'Z' && 2 <= d <= 9
    ensures MapLetter(c) == d <==> c in Keypad[d - 2]
  {
    assert Keypad[d - 2] == ["ABC", "DEF", "GHI", "JKL", "MNO", "PQRS", "TUV", "WXYZ"][d - 2];
  }

  predicate IsDigit(c: char)
  {
    '0' <= c <= '9'
  }

  /** Character.toUpperCase on ASCII letters. */
  function ToUpper(c: char): char
  {
    if 'a' <= c <= 'z' then (c as int - 32) as char else c
  }

  /** What hashCode adds for the character c. */
  function Weight(c: char): int
  {
    if c == '-' then 0
    else if IsDigit(c) then c as int - '0' as int
    else if 'A' <= ToUpper(c) <= 'Z' then MapLetter(ToUpper(c))
    else 0
  }

  class PhoneNumber {
    var rep: string

    constructor (pNum: string)
      ensures rep == pNum
    {
      rep := pNum;
    }

    /** hashCode: the weights of the characters, added up in an int. */
    method HashCode() returns (total: int)
      ensures total == Wrap(Sum(rep, Weight))
    {
      total := 0;
      for i := 0 to |rep|
        invariant total == Wrap(Sum(rep[..i], Weight))
      {
        var c := rep[i];
        assert rep[..i + 1][..i] == rep[..i];
        WrapAdd(Sum(rep[..i], Weight), Weight(c));
        if c == '-' {
          continue;
        } else if IsDigit(c) {
          total := Wrap(total + (c as int - '0' as int));
        } else {
          var u := ToUpper(c);
          if u >= 'A' && u <= 'Z' {
            total := Wrap(total + MapLetter(u));
          } else {
            assert Weight(c) == 0;
            assert total == Wrap(total + 0);
          }
        }
      }
      assert rep[..|rep|] == rep;
    }
  }

  /** The character with every letter replaced by its keypad digit. */
  function KeypadChar(c: char): char
  {
    if c != '-' && !IsDigit(c) && 'A' <= ToUpper(c) <= 'Z' then ('0' as int + MapLetter(ToUpper(c))) as char else c
  }

  function KeypadDigits(s: string): string
  {
    seq(|s|, i requires 0 <= i < |s| => KeypadChar(s[i]))
  }

  /** Each character weighs between 0 and 9, so a number's hash is at most 9 per character. */
  lemma {:induction false} WeightBounds(s: string)
    ensures 0 <= Sum(s, Weight) <= 9 * |s|
    decreases |s|
  {
    if |s| > 0 {
      WeightBounds(s[..|s| - 1]);
    }
  }

  /** A lettered number hashes like its keypad-digit equivalent: "ABC" like "222". */
  lemma {:induction false} LettersHashAsDigits(s: string)
    ensures Sum(KeypadDigits(s), Weight) == Sum(s, Weight)
    decreases |s|
  {
    if |s| > 0 {
      var front := s[..|s| - 1];
      LettersHashAsDigits(front);
      assert KeypadDigits(s)[..|s| - 1] == KeypadDigits(front);
      var c := s[|s| - 1];
      assert Weight(KeypadChar(c)) == Weight(c);
    }
  }
}
