/** ASCII text: decimal numerals, and splitting at dots. */
module Text {
  const HEX_DIGITS := "0123456789abcdef"

  predicate IsAscii(s: string) { forall i :: 0 <= i < |s| ==> s[i] as int < 256 }

  lemma DigitsDiffer(i: nat, j: nat)
    requires i < 16 && j < 16 && HEX_DIGITS[i] == HEX_DIGITS[j]
    ensures i == j
  {}

  function Decimal(n: nat): (s: string)
    ensures IsAscii(s) && (if n < 10 then |s| == 1 else |s| >= 2)
  {
    if n < 10 then [HEX_DIGITS[n]] else Decimal(n / 10) + [HEX_DIGITS[n % 10]]
  }

  lemma {:induction false} DecimalIsInjective(m: nat, n: nat)
    requires Decimal(m) == Decimal(n)
    ensures m == n
  {
    var a, b := Decimal(m), Decimal(n);
    assert a[|a| - 1] == HEX_DIGITS[m % 10] && b[|b| - 1] == HEX_DIGITS[n % 10];
    DigitsDiffer(m % 10, n % 10);
    if m >= 10 && n >= 10 {
      assert a[..|a| - 1] == Decimal(m / 10) && b[..|b| - 1] == Decimal(n / 10);
      DecimalIsInjective(m / 10, n / 10);
    }
  }

  predicate IsNumeral(s: string) { s != "" && forall i :: 0 <= i < |s| ==> '0' <= s[i] <= '9' }

  /** The number that a numeral stands for. */
  function Read(s: string): nat
    requires forall i :: 0 <= i < |s| ==> '0' <= s[i] <= '9'
  {
    if s == "" then 0 else 10 * Read(s[..|s| - 1]) + (s[|s| - 1] as int - '0' as int)
  }

  lemma DigitIs(i: nat)
    requires i < 10
    ensures HEX_DIGITS[i] as int == '0' as int + i
  {}

  /** n.toString(): the numeral of n, without leading zeros. */
  lemma {:induction false} DecimalReads(n: nat)
    ensures IsNumeral(Decimal(n)) && Read(Decimal(n)) == n && (n > 0 ==> Decimal(n)[0] != '0')
  {
    DigitIs(n % 10);
    var s := Decimal(n);
    if n < 10 {
      assert s[..0] == "" && s[0] == HEX_DIGITS[n];
    } else {
      DecimalReads(n / 10);
      assert s[..|s| - 1] == Decimal(n / 10) && s[|s| - 1] == HEX_DIGITS[n % 10];
      assert forall i :: 0 <= i < |s| - 1 ==> s[i] == Decimal(n / 10)[i];
    }
  }

  /** path.split('.') */
  function Split(path: string): (keys: seq<string>)
    ensures keys != []
  {
    if path == "" then [""]
    else
      var rest := Split(path[1..]);
      if path[0] == '.' then [""] + rest else [[path[0]] + rest[0]] + rest[1..]
  }

  predicate NoDot(s: string) { forall i :: 0 <= i < |s| ==> s[i] != '.' }

  /** keys.join('.') */
  function Join(keys: seq<string>): string
    requires keys != []
  {
    if |keys| == 1 then keys[0] else keys[0] + "." + Join(keys[1..])
  }

  lemma {:induction false} SplitAtDot(key: string, rest: string)
    requires NoDot(key)
    ensures Split(key) == [key] && Split(key + "." + rest) == [key] + Split(rest)
  {
    if key == "" {
      assert ("" + "." + rest)[1..] == rest;
    } else {
      SplitAtDot(key[1..], rest);
      assert (key + "." + rest)[1..] == key[1..] + "." + rest;
      assert [key[0]] + key[1..] == key;
    }
  }

  /** Splitting gives back the dot-free keys that were joined. */
  lemma {:induction false} SplitJoin(keys: seq<string>)
    requires keys != [] && forall i :: 0 <= i < |keys| ==> NoDot(keys[i])
    ensures Split(Join(keys)) == keys
  {
    if |keys| == 1 {
      SplitAtDot(keys[0], "");
    } else {
      SplitJoin(keys[1..]);
      SplitAtDot(keys[0], Join(keys[1..]));
    }
  }

  /** Every path is the join of the dot-free keys it is split into. */
  lemma {:induction false} JoinSplit(path: string)
    ensures Join(Split(path)) == path && forall i :: 0 <= i < |Split(path)| ==> NoDot(Split(path)[i])
  {
    if path != "" {
      JoinSplit(path[1..]);
      var keys, rest := Split(path), Split(path[1..]);
      assert path == [path[0]] + path[1..];
      if path[0] == '.' {
        assert keys[1..] == rest;
      } else {
        assert keys[1..] == rest[1..] && keys[0] == [path[0]] + rest[0];
        assert |keys| > 1 ==> keys[0] + "." + Join(keys[1..]) == [path[0]] + (rest[0] + "." + Join(rest[1..]));
      }
    }
  }
}
