/**
 The string work the gateway leans on: decimal printing (`%d`, `%v`) and `strconv.Atoi`,
 `strings.Split`, `strings.Contains`, and the byte order in which a directory is listed.
 */
module Text {
  datatype Option<+T> = None | Some(value: T)

  // Go's int is 64 bits wide on every platform the gateway is built for.
  const MAX_INT: int := 0x7fff_ffff_ffff_ffff

  predicate IsDigit(c: char) {
    '0' <= c <= '9'
  }

  predicate AllDigits(s: string) {
    forall i :: 0 <= i < |s| ==> IsDigit(s[i])
  }

  /** Decimal printing without padding. */
  function Itoa(n: nat): (s: string)
    ensures s != [] && AllDigits(s)
  {
    var last := '0' + (n % 10) as char;
    if n < 10 then [last] else Itoa(n / 10) + [last]
  }

  function DigitsValue(s: string): nat
    requires AllDigits(s)
  {
    if s == [] then 0
    else 10 * DigitsValue(s[..|s| - 1]) + (s[|s| - 1] - '0') as nat
  }

  /** `strconv.Atoi`: an optional sign, then at least one digit, and the value must fit. */
  function Atoi(s: string): Option<int> {
    var signed := s != [] && (s[0] == '+' || s[0] == '-');
    var digits := if signed then s[1..] else s;
    if digits == [] || !AllDigits(digits) then None
    else
      var v: int := DigitsValue(digits);
      if signed && s[0] == '-' then (if v <= MAX_INT + 1 then Some(-v) else None)
      else if v <= MAX_INT then Some(v)
      else None
  }

  lemma {:induction false} DigitsOfItoa(n: nat)
    ensures DigitsValue(Itoa(n)) == n
  {
    var s := Itoa(n);
    if n < 10 {
      assert s[..|s| - 1] == [];
    } else {
      DigitsOfItoa(n / 10);
      assert s[..|s| - 1] == Itoa(n / 10);
    }
  }

  /** Parsing undoes printing for every int the gateway prints. */
  lemma AtoiOfItoa(n: nat)
    requires n <= MAX_INT
    ensures Atoi(Itoa(n)) == Some(n)
  {
    DigitsOfItoa(n);
    assert IsDigit(Itoa(n)[0]);
  }

  /** `strings.Split` for a one-character separator. */
  function Split(s: string, sep: char): (fields: seq<string>)
    ensures fields != []
  {
    if s == [] then [[]]
    else
      var rest := Split(s[1..], sep);
      if s[0] == sep then [[]] + rest else [[s[0]] + rest[0]] + rest[1..]
  }

  function LastField(s: string, sep: char): string {
    var fields := Split(s, sep);
    fields[|fields| - 1]
  }

  lemma {:induction false} SplitWithoutSeparator(s: string, sep: char)
    requires sep !in s
    ensures Split(s, sep) == [s]
  {
    if s != [] {
      SplitWithoutSeparator(s[1..], sep);
      assert s == [s[0]] + s[1..];
    }
  }

  /** Whatever comes first, the last field is the text after the last separator. */
  lemma {:induction false} LastFieldAfterSeparator(s: string, sep: char, t: string)
    requires sep !in t
    ensures |Split(s + [sep] + t, sep)| > 1 && LastField(s + [sep] + t, sep) == t
  {
    var whole := s + [sep] + t;
    if s == [] {
      assert whole[1..] == t;
      SplitWithoutSeparator(t, sep);
    } else {
      assert whole[1..] == s[1..] + [sep] + t;
      LastFieldAfterSeparator(s[1..], sep, t);
    }
  }

  predicate OccursAt(s: string, i: nat, part: string) {
    i + |part| <= |s| && s[i..i + |part|] == part
  }

  predicate Contains(s: string, part: string) {
    exists i: nat :: i <= |s| && OccursAt(s, i, part)
  }

  /** The order of `os.ReadDir`. */
  predicate Less(a: string, b: string) {
    if b == [] then false
    else if a == [] then true
    else a[0] < b[0] || (a[0] == b[0] && Less(a[1..], b[1..]))
  }

  lemma {:induction false} LessTotal(a: string, b: string)
    ensures Less(a, b) || Less(b, a) || a == b
    ensures !(Less(a, b) && Less(b, a))
    ensures !Less(a, a)
  {
    if a != [] && b != [] {
      LessTotal(a[1..], b[1..]);
      assert a == [a[0]] + a[1..] && b == [b[0]] + b[1..];
    }
    if a != [] {
      LessTotal(a[1..], a[1..]);
    }
  }

  lemma {:induction false} LessTransitive(a: string, b: string, c: string)
    requires Less(a, b) && Less(b, c)
    ensures Less(a, c)
  {
    if a != [] && a[0] == b[0] && b[0] == c[0] {
      LessTransitive(a[1..], b[1..], c[1..]);
    }
  }

  predicate Sorted(names: seq<string>) {
    forall i, j :: 0 <= i < j < |names| ==> Less(names[i], names[j])
  }

  ghost predicate Listing(names: seq<string>, dir: set<string>) {
    && Sorted(names)
    && (forall name :: name in names <==> name in dir)
  }

  function Flatten<T>(parts: seq<seq<T>>): seq<T> {
    if parts == [] then [] else Flatten(parts[..|parts| - 1]) + parts[|parts| - 1]
  }

  /** Byte j of part i lies behind all parts before it. */
  lemma {:induction false} FlattenAt<T>(parts: seq<seq<T>>, i: nat, j: nat)
    requires i < |parts| && j < |parts[i]|
    ensures |Flatten(parts[..i])| + j < |Flatten(parts)|
    ensures Flatten(parts)[|Flatten(parts[..i])| + j] == parts[i][j]
  {
    var last := |parts| - 1;
    if i < last {
      FlattenAt(parts[..last], i, j);
      assert parts[..last][..i] == parts[..i];
    }
  }

  /** The first character in which two names differ decides, and a name comes before its continuations. */
  lemma {:induction false} LessByFirstDifference(p: string, a: char, s: string, b: char, t: string)
    ensures a != b ==> (Less(p + [a] + s, p + [b] + t) <==> a < b)
    ensures Less(p, p + [a] + s)
  {
    if p != [] {
      LessByFirstDifference(p[1..], a, s, b, t);
      assert (p + [a] + s)[1..] == p[1..] + [a] + s;
      assert (p + [b] + t)[1..] == p[1..] + [b] + t;
    }
  }

  /** What is read as a number: digits that fit, behind at most one sign. */
  lemma {:induction false} AtoiReadsIff(digits: string)
    ensures Atoi(digits).Some? && Atoi(digits).value >= 0 && digits != [] && IsDigit(digits[0]) <==>
      digits != [] && AllDigits(digits) && DigitsValue(digits) <= MAX_INT
    ensures digits != [] && AllDigits(digits) ==>
      && Atoi("+" + digits) == Atoi(digits)
      && Atoi("-" + digits) ==
           if DigitsValue(digits) <= MAX_INT + 1 then Some(-(DigitsValue(digits) as int)) else None
  {
    assert ("+" + digits)[1..] == digits && ("-" + digits)[1..] == digits;
    if digits != [] && AllDigits(digits) {
      assert IsDigit(digits[0]);
    }
  }
}
