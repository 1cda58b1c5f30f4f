/** File names in the log directory (crates/keyro-core/src/logging.rs).

  A directory entry is the current log, a rotated log with its index, or any
  other file. `Text` gives the name on disk; the lemmas show that telling the
  three kinds apart loses nothing against comparing the texts.
  */
module LogNames {
  const LOG_FILE_NAME := "keyro-core.log"
  const LOG_PREFIX := "keyro-core."
  const LOG_SUFFIX := ".log"

  datatype Name = Current | Rotated(index: nat) | Other(text: string)

  /** The decimal digits that `{index}` formats to. */
  function Digits(n: nat): string {
    if n < 10 then [Digit(n)] else Digits(n / 10) + [Digit(n % 10)]
  }

  function Digit(n: nat): char
    requires n < 10
  {
    ['0', '1', '2', '3', '4', '5', '6', '7', '8', '9'][n]
  }

  function Text(name: Name): string {
    match name
    case Current => LOG_FILE_NAME
    case Rotated(index) => LOG_PREFIX + Digits(index) + LOG_SUFFIX
    case Other(text) => text
  }

  predicate EndsWith(text: string, suffix: string) {
    |suffix| <= |text| && text[|text| - |suffix|..] == suffix
  }

  predicate IsKeyroLogText(text: string) {
    text == LOG_FILE_NAME || (LOG_PREFIX <= text && EndsWith(text, LOG_SUFFIX))
  }

  predicate IsKeyroLog(name: Name) {
    name.Other? ==> IsKeyroLogText(name.text)
  }

  /** An `Other` entry carries a text that is not the text of a log in the rotation. */
  ghost predicate Canonical(name: Name) {
    name.Other? ==>
      && name.text != Text(Current)
      && forall index: nat :: name.text != Text(Rotated(index))
  }

  lemma {:induction false} DigitsInjective(m: nat, n: nat)
    requires Digits(m) == Digits(n)
    ensures m == n
  {
    var s := Digits(m);
    assert s[|s| - 1] == Digit(m % 10) == Digit(n % 10);
    if m >= 10 && n >= 10 {
      assert Digits(m / 10) == s[..|s| - 1] == Digits(n / 10);
      DigitsInjective(m / 10, n / 10);
    } else if m >= 10 {
      DigitsNonEmpty(m / 10);
    } else if n >= 10 {
      DigitsNonEmpty(n / 10);
    }
  }

  lemma {:induction false} DigitsNonEmpty(n: nat)
    ensures Digits(n) != []
  {
  }

  /** Comparing names is comparing file names: no two entries share a text. */
  lemma {:induction false} TextIdentifiesName(a: Name, b: Name)
    requires Canonical(a) && Canonical(b)
    requires Text(a) == Text(b)
    ensures a == b
  {
    match (a, b)
    case (Rotated(i), Rotated(j)) =>
      var s := Text(a);
      assert Digits(i) == s[|LOG_PREFIX|..|s| - |LOG_SUFFIX|] == Digits(j);
      DigitsInjective(i, j);
    case (Rotated(i), Current) => CurrentIsNotRotated(i);
    case (Current, Rotated(j)) => CurrentIsNotRotated(j);
    case _ =>
  }

  lemma {:induction false} CurrentIsNotRotated(index: nat)
    ensures Text(Rotated(index)) != LOG_FILE_NAME
  {
    DigitsNonEmpty(index);
    assert |Text(Rotated(index))| >= |LOG_PREFIX| + 1 + |LOG_SUFFIX|;
  }

  /** The test on the kind of name is the test the program makes on its text. */
  lemma {:induction false} KeyroLogByText(name: Name)
    ensures IsKeyroLog(name) <==> IsKeyroLogText(Text(name))
  {
    if name.Rotated? {
      var text := Text(name);
      assert text[..|LOG_PREFIX|] == LOG_PREFIX;
      assert text[|text| - |LOG_SUFFIX|..] == LOG_SUFFIX;
    }
  }

  predicate IsDecimal(digits: string) {
    && digits != "" && (forall i | 0 <= i < |digits| :: '0' <= digits[i] <= '9')
    && (digits[0] == '0' ==> |digits| == 1)
  }

  /** The number that decimal digits stand for. */
  function Numeral(digits: string): nat
    requires forall i | 0 <= i < |digits| :: '0' <= digits[i] <= '9'
  {
    if digits == "" then 0
    else Numeral(digits[..|digits| - 1]) * 10 + (digits[|digits| - 1] as int - '0' as int)
  }

  lemma {:induction false} DigitsRead(n: nat)
    ensures IsDecimal(Digits(n)) && Numeral(Digits(n)) == n
    ensures n > 0 ==> Digits(n)[0] != '0'
  {
    DigitReads(n % 10);
    if n >= 10 {
      DigitsRead(n / 10);
      var digits := Digits(n);
      assert digits[..|digits| - 1] == Digits(n / 10);
    } else {
      var digits := Digits(n);
      assert digits[..|digits| - 1] == "";
    }
  }

  lemma {:induction false} DigitReads(n: nat)
    requires n < 10
    ensures '0' <= Digit(n) <= '9' && Digit(n) as int - '0' as int == n && (n > 0 ==> Digit(n) != '0')
  {
  }

  /** A rotated log is called keyro-core.N.log, with its index in decimal for N. */
  lemma {:induction false} RotatedText(index: nat) returns (digits: string)
    ensures IsDecimal(digits) && Numeral(digits) == index
    ensures Text(Rotated(index)) == "keyro-core." + digits + ".log"
  {
    digits := Digits(index);
    DigitsRead(index);
  }
}
