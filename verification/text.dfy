// Strings as Go sees them: byte order, splitting, joining, decimal digits.
// Shared by the address printer, the version order, the backup names, the
// migration names and the parser of `wg show`.
module Text {
  datatype Option<+T> = None | Some(value: T)

  // ---- byte order ---------------------------------------------------------

  // Go's `a < b` on strings.
  predicate Less(a: string, b: string) {
    if b == [] then false
    else if a == [] then true
    else if a[0] != b[0] then a[0] < b[0]
    else Less(a[1..], b[1..])
  }

  lemma {:induction false} LessTrichotomy(a: string, b: string)
    ensures Less(a, b) ==> a != b && !Less(b, a)
    ensures Less(a, b) || Less(b, a) || a == b
  {
    if a != [] && b != [] {
      LessTrichotomy(a[1..], b[1..]);
      assert a[0] == b[0] && a[1..] == b[1..] ==> a == [a[0]] + a[1..] == b;
    }
  }

  // a and b agree before position k, where a ends or has the smaller character.
  predicate SmallerAt(a: string, b: string, k: nat) {
    k < |b| && k <= |a| && a[..k] == b[..k] && (k == |a| || a[k] < b[k])
  }

  // What byte order is: the first difference decides, and a proper first part is smaller.
  lemma {:induction false} LessMeans(a: string, b: string)
    ensures Less(a, b) <==> exists k :: SmallerAt(a, b, k)
  {
    if b != [] && a != [] && a[0] == b[0] {
      LessMeans(a[1..], b[1..]);
      forall k: nat ensures SmallerAt(a[1..], b[1..], k) <==> SmallerAt(a, b, k + 1) {
        if k < |b[1..]| && k <= |a[1..]| {
          assert a[..k + 1] == [a[0]] + a[1..][..k] && b[..k + 1] == [b[0]] + b[1..][..k];
        }
      }
      assert !SmallerAt(a, b, 0);
      if exists k: nat :: SmallerAt(a[1..], b[1..], k) {
        var k: nat :| SmallerAt(a[1..], b[1..], k);
        assert SmallerAt(a, b, k + 1);
      }
      if exists k: nat :: SmallerAt(a, b, k) {
        var k: nat :| SmallerAt(a, b, k);
        assert SmallerAt(a[1..], b[1..], k - 1);
      }
    } else if b != [] && (a == [] || a[0] < b[0]) {
      assert SmallerAt(a, b, 0);
    } else {
      forall k: nat ensures !SmallerAt(a, b, k) {
        if 0 < k < |b| && k <= |a| {
          assert a[..k][0] == a[0] && b[..k][0] == b[0];
        }
      }
    }
  }

  lemma {:induction false} LessTransitive(a: string, b: string, c: string)
    requires Less(a, b) && Less(b, c)
    ensures Less(a, c)
  {
    if a != [] && a[0] == b[0] == c[0] {
      LessTransitive(a[1..], b[1..], c[1..]);
    }
  }

  // Strings that agree in length on a first part are ordered by that part first.
  lemma {:induction false} LessConcat(a: string, x: string, b: string, y: string)
    requires |a| == |b|
    ensures Less(a + x, b + y) <==> Less(a, b) || (a == b && Less(x, y))
  {
    if a == [] {
      assert a + x == x && b + y == y;
    } else {
      assert (a + x)[1..] == a[1..] + x && (b + y)[1..] == b[1..] + y;
      LessConcat(a[1..], x, b[1..], y);
      assert a == [a[0]] + a[1..] && b == [b[0]] + b[1..];
    }
  }

  // A common first part does not matter.
  lemma LessCommonPrefix(p: string, x: string, y: string)
    ensures Less(p + x, p + y) <==> Less(x, y)
  {
    LessConcat(p, x, p, y);
    LessTrichotomy(p, p);
  }

  // ---- sorting -------------------------------------------------------------

  predicate Sorted(names: seq<string>) { forall i, j | 0 <= i < j < |names| :: !Less(names[j], names[i]) }

  function InsertName(names: seq<string>, n: string): seq<string> {
    if names == [] || Less(n, names[0]) then [n] + names else [names[0]] + InsertName(names[1..], n)
  }

  lemma {:induction false} InsertNameSorts(names: seq<string>, n: string)
    requires Sorted(names)
    ensures Sorted(InsertName(names, n))
    ensures forall m :: m in InsertName(names, n) <==> m == n || m in names
  {
    if names != [] {
      if Less(n, names[0]) {
        forall k | 0 <= k < |names| ensures !Less(names[k], n) {
          if Less(names[k], n) {
            LessTransitive(names[k], n, names[0]);
            if k == 0 { LessTrichotomy(names[0], names[0]); }
          }
        }
      } else {
        InsertNameSorts(names[1..], n);
        var rest := InsertName(names[1..], n);
        forall k | 0 <= k < |rest| ensures !Less(rest[k], names[0]) {
          assert rest[k] in rest;
          if rest[k] != n {
            var i :| 0 <= i < |names[1..]| && names[1..][i] == rest[k];
            assert names[i + 1] == rest[k];
          }
        }
      }
    }
  }

  // ---- decimal digits -----------------------------------------------------

  predicate IsDigit(c: char) { '0' <= c <= '9' }

  predicate Digits(s: string) { forall i | 0 <= i < |s| :: IsDigit(s[i]) }

  function DigitValue(c: char): (d: nat)
    requires IsDigit(c)
    ensures d <= 9
  {
    c as int - '0' as int
  }

  function DigitChar(d: nat): (c: char)
    requires d <= 9
    ensures IsDigit(c) && DigitValue(c) == d
  {
    ('0' as int + d) as char
  }

  function Pow10(n: nat): (p: nat)
    ensures p >= 1
  {
    if n == 0 then 1 else 10 * Pow10(n - 1)
  }

  // The number a digit string denotes; unbounded, leading zeros allowed.
  function Num(s: string): nat
    requires Digits(s)
  {
    if s == [] then 0 else DigitValue(s[0]) * Pow10(|s| - 1) + Num(s[1..])
  }

  lemma {:induction false} NumBound(s: string)
    requires Digits(s)
    ensures Num(s) < Pow10(|s|)
  {
    if s != [] {
      NumBound(s[1..]);
      MulMono(DigitValue(s[0]), 9, Pow10(|s| - 1));
    }
  }

  lemma MulMono(a: nat, b: nat, p: nat)
    requires a <= b
    ensures a * p <= b * p
  {
  }

  // A leading digit outweighs everything after it.
  lemma LeadingDigit(d: nat, e: nat, p: nat, x: nat, y: nat)
    requires d < e && x < p
    ensures d * p + x < e * p + y
  {
    MulMono(d + 1, e, p);
    assert (d + 1) * p == d * p + p;
  }

  // On digit strings of one length, byte order is numeric order.
  lemma {:induction false} SameLengthOrder(a: string, b: string)
    requires Digits(a) && Digits(b) && |a| == |b|
    ensures Less(a, b) <==> Num(a) < Num(b)
    ensures a == b <==> Num(a) == Num(b)
  {
    if a != [] {
      SameLengthOrder(a[1..], b[1..]);
      NumBound(a[1..]);
      NumBound(b[1..]);
      var p := Pow10(|a| - 1);
      if a[0] < b[0] {
        LeadingDigit(DigitValue(a[0]), DigitValue(b[0]), p, Num(a[1..]), Num(b[1..]));
      } else if b[0] < a[0] {
        LeadingDigit(DigitValue(b[0]), DigitValue(a[0]), p, Num(b[1..]), Num(a[1..]));
      } else {
        assert a == [a[0]] + a[1..] && b == [b[0]] + b[1..];
      }
    }
  }

  lemma ShiftDigits(d: nat, p: nat, x: nat, e: nat)
    ensures d * (10 * p) + (x * 10 + e) == (d * p + x) * 10 + e
  {
  }

  lemma {:induction false} NumSnoc(s: string, c: char)
    requires Digits(s) && IsDigit(c)
    ensures Digits(s + [c]) && Num(s + [c]) == Num(s) * 10 + DigitValue(c)
  {
    if s == [] {
      assert s + [c] == [c];
      assert Num([c]) == DigitValue(c) * Pow10(0) + Num([]);
    } else {
      NumSnoc(s[1..], c);
      assert (s + [c])[1..] == s[1..] + [c];
      assert (s + [c])[0] == s[0] && |s + [c]| - 1 == |s|;
      ShiftDigits(DigitValue(s[0]), Pow10(|s| - 1), Num(s[1..]), DigitValue(c));
    }
  }

  // strconv's shortest decimal form.
  function Dec(n: nat): (s: string)
    ensures s != [] && Digits(s)
  {
    if n < 10 then [DigitChar(n)] else Dec(n / 10) + [DigitChar(n % 10)]
  }

  lemma {:induction false} NumDec(n: nat)
    ensures Num(Dec(n)) == n
  {
    if n < 10 {
      NumSnoc([], DigitChar(n));
      assert [] + [DigitChar(n)] == Dec(n);
    } else {
      NumDec(n / 10);
      NumSnoc(Dec(n / 10), DigitChar(n % 10));
    }
  }

  // The last w decimal digits of n, padded with zeros.
  function Pad(n: nat, w: nat): (s: string)
    ensures |s| == w && Digits(s)
  {
    if w == 0 then [] else Pad(n / 10, w - 1) + [DigitChar(n % 10)]
  }

  lemma {:induction false} NumPad(n: nat, w: nat)
    requires n < Pow10(w)
    ensures Num(Pad(n, w)) == n
  {
    if w > 0 {
      NumPad(n / 10, w - 1);
      NumSnoc(Pad(n / 10, w - 1), DigitChar(n % 10));
    }
  }

  // Fixed-width printing keeps order and distinctness.
  lemma PadOrder(a: nat, b: nat, w: nat)
    requires a < Pow10(w) && b < Pow10(w)
    ensures Less(Pad(a, w), Pad(b, w)) <==> a < b
    ensures Pad(a, w) == Pad(b, w) <==> a == b
  {
    NumPad(a, w);
    NumPad(b, w);
    SameLengthOrder(Pad(a, w), Pad(b, w));
  }

  // ---- splitting and joining ----------------------------------------------

  // strings.SplitN(s, sep, 2)[0]
  function Before(s: string, sep: char): (p: string)
    ensures sep !in p
  {
    if s == [] || s[0] == sep then [] else [s[0]] + Before(s[1..], sep)
  }

  // strings.Split(s, sep); always at least one piece.
  function Split(s: string, sep: char): (r: seq<string>)
    ensures |r| >= 1
    ensures forall i | 0 <= i < |r| :: sep !in r[i]
  {
    if s == [] then [[]]
    else
      var rest := Split(s[1..], sep);
      if s[0] == sep then [[]] + rest else [[s[0]] + rest[0]] + rest[1..]
  }

  function Join(parts: seq<string>, sep: char): string
  {
    if parts == [] then []
    else if |parts| == 1 then parts[0]
    else parts[0] + [sep] + Join(parts[1..], sep)
  }

  lemma {:induction false} SplitHead(a: string, rest: string, sep: char)
    requires sep !in a
    ensures Split(a, sep) == [a]
    ensures Split(a + [sep] + rest, sep) == [a] + Split(rest, sep)
    ensures Before(a, sep) == a
    ensures Before(a + [sep] + rest, sep) == a
  {
    if a == [] {
      assert a + [sep] + rest == [sep] + rest;
      assert ([sep] + rest)[1..] == rest;
    } else {
      assert (a + [sep] + rest)[1..] == a[1..] + [sep] + rest;
      assert a == [a[0]] + a[1..];
      SplitHead(a[1..], rest, sep);
    }
  }

  // Splitting undoes joining, whatever the pieces, as long as none holds the separator.
  lemma {:induction false} SplitJoin(parts: seq<string>, sep: char)
    requires parts != []
    requires forall i | 0 <= i < |parts| :: sep !in parts[i]
    ensures Split(Join(parts, sep), sep) == parts
  {
    if |parts| == 1 {
      SplitHead(parts[0], [], sep);
    } else {
      SplitHead(parts[0], Join(parts[1..], sep), sep);
      SplitJoin(parts[1..], sep);
      assert parts == [parts[0]] + parts[1..];
    }
  }
}
