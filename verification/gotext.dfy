/** The Go standard-library text primitives the solvers rely on
    (strings.Split, strings.Fields, strings.TrimSpace, strings.Contains,
    strings.HasPrefix, strconv.Atoi / ParseInt and FormatInt), written out for
    ASCII strings with unbounded integers, and the few facts about slices
    that several solvers share. */
module GoText {

  datatype Option<T> = None | Some(value: T)

  // ---------------------------------------------------------------- digits

  predicate IsDigit(c: char) { '0' <= c <= '9' }

  function DigitValue(c: char): (d: nat)
    requires IsDigit(c)
    ensures d < 10
  {
    c as int - '0' as int
  }

  function DigitChar(d: nat): (c: char)
    requires d < 10
    ensures IsDigit(c) && DigitValue(c) == d
  {
    ('0' as int + d) as char
  }

  predicate AllDigits(s: string) { forall i :: 0 <= i < |s| ==> IsDigit(s[i]) }

  function Pow10(k: nat): (r: nat)
    ensures r >= 1
  {
    if k == 0 then 1 else 10 * Pow10(k - 1)
  }

  /** Value of a string of decimal digits; leading zeros are allowed. */
  function DigitsValue(s: string): nat
    requires AllDigits(s)
  {
    if s == [] then 0 else DigitsValue(s[..|s| - 1]) * 10 + DigitValue(s[|s| - 1])
  }

  /** Number of decimal digits of n, without leading zeros (0 has one digit). */
  function NumDigits(n: nat): (d: nat)
    ensures d >= 1
  {
    if n < 10 then 1 else 1 + NumDigits(n / 10)
  }

  lemma {:induction false} Pow10Add(a: nat, b: nat)
    ensures Pow10(a + b) == Pow10(a) * Pow10(b)
  {
    if b > 0 {
      Pow10Add(a, b - 1);
      assert Pow10(a + b) == 10 * Pow10(a + b - 1);
    }
  }

  lemma {:induction false} DigitsValueAppend(a: string, b: string)
    requires AllDigits(a) && AllDigits(b)
    ensures AllDigits(a + b)
    ensures DigitsValue(a + b) == DigitsValue(a) * Pow10(|b|) + DigitsValue(b)
  {
    assert AllDigits(a + b);
    if b != [] {
      var b' := b[..|b| - 1];
      assert (a + b)[..|a + b| - 1] == a + b';
      DigitsValueAppend(a, b');
      var d := DigitValue(b[|b| - 1]);
      assert b[..|b| - 1] == b';
      assert DigitsValue(b) == DigitsValue(b') * 10 + d;
      assert DigitsValue(a + b) == DigitsValue(a + b') * 10 + d;
      assert Pow10(|b|) == 10 * Pow10(|b'|);
      ShiftDigit(DigitsValue(a), Pow10(|b'|), DigitsValue(b'), d);
    } else {
      assert a + b == a;
    }
  }

  lemma ShiftDigit(x: int, p: int, y: int, d: int)
    ensures (x * p + y) * 10 + d == x * (10 * p) + (y * 10 + d)
  {
  }

  lemma {:induction false} DigitsValueBound(s: string)
    requires AllDigits(s)
    ensures DigitsValue(s) < Pow10(|s|)
  {
    if s != [] {
      DigitsValueBound(s[..|s| - 1]);
    }
  }

  // ---------------------------------------------------------------- FormatInt

  /** strconv.FormatInt(n, 10) for n >= 0. */
  function FormatNat(n: nat): (s: string)
    ensures |s| >= 1 && AllDigits(s)
  {
    if n < 10 then [DigitChar(n)] else FormatNat(n / 10) + [DigitChar(n % 10)]
  }

  /** strconv.FormatInt(n, 10): a minus sign, then the digits of |n|. */
  function FormatInt(n: int): string
  {
    if n < 0 then "-" + FormatNat(-n) else FormatNat(n)
  }

  /** The decimal rendering has no leading zero, its length is the digit
      count, and reading it back gives the number. */
  lemma {:induction false} FormatNatFacts(n: nat)
    ensures |FormatNat(n)| == NumDigits(n)
    ensures DigitsValue(FormatNat(n)) == n
    ensures FormatNat(n)[0] == '0' <==> n == 0
  {
    if n >= 10 {
      FormatNatFacts(n / 10);
      var s := FormatNat(n / 10) + [DigitChar(n % 10)];
      assert s[..|s| - 1] == FormatNat(n / 10);
    }
  }

  lemma {:induction false} NumDigitsBounds(n: nat)
    ensures n < Pow10(NumDigits(n))
    ensures NumDigits(n) > 1 ==> Pow10(NumDigits(n) - 1) <= n
  {
    if n >= 10 {
      NumDigitsBounds(n / 10);
    }
  }

  // ---------------------------------------------------------------- ParseInt

  /** strconv.Atoi and strconv.ParseInt(s, 10, 64): an optional sign followed by
      at least one decimal digit; anything else is a syntax error (None). */
  function ParseInt(s: string): (r: Option<int>)
    ensures r.Some? ==> |s| > 0
    ensures AllDigits(s) && |s| > 0 ==> r == Some(DigitsValue(s))
  {
    if |s| > 0 && (s[0] == '+' || s[0] == '-') then
      var body := s[1..];
      if |body| > 0 && AllDigits(body) then
        Some(if s[0] == '-' then -(DigitsValue(body) as int) else DigitsValue(body))
      else None
    else if |s| > 0 && AllDigits(s) then Some(DigitsValue(s))
    else None
  }

  /** The values of the fields that parse, in order; fields that fail to
      parse are skipped (the `if err != nil { continue }` loops). */
  function ParsedInts(fields: seq<string>): (values: seq<int>)
    ensures |values| <= |fields|
    ensures forall v :: v in values ==> exists f :: f in fields && ParseInt(f) == Some(v)
    ensures (forall k :: 0 <= k < |fields| ==> ParseInt(fields[k]).Some?) ==> |values| == |fields|
  {
    if fields == [] then []
    else
      var rest := ParsedInts(fields[1..]);
      assert forall v :: v in rest ==> exists f :: f in fields && ParseInt(f) == Some(v) by {
        forall v | v in rest ensures exists f :: f in fields && ParseInt(f) == Some(v) {
          var f :| f in fields[1..] && ParseInt(f) == Some(v);
          assert f in fields;
        }
      }
      match ParseInt(fields[0])
      case Some(v) => [v] + rest
      case None => rest
  }

  /** One step of a parsing loop: the field at `i` contributes its value
      when it parses, and nothing when it does not. */
  lemma ParsedIntsStep(fields: seq<string>, i: nat)
    requires i < |fields|
    ensures ParsedInts(fields[i..]) ==
              (if ParseInt(fields[i]).Some? then [ParseInt(fields[i]).value] else []) + ParsedInts(fields[i + 1..])
  {
    assert fields[i..][1..] == fields[i + 1..];
  }

  /** The value a Go caller holds after ignoring the parse error: 0 on failure. */
  function AtoiOrZero(s: string): int
  {
    match ParseInt(s)
    case Some(v) => v
    case None => 0
  }

  /** Parsing the rendering of a number gives the number back. */
  lemma {:induction false} ParseFormatRoundTrip(n: int)
    ensures ParseInt(FormatInt(n)) == Some(n)
  {
    if n < 0 {
      var digits := FormatNat(-n);
      FormatNatFacts(-n);
      assert DigitsValue(digits) == -n;
      ParseNegative(digits);
      assert FormatInt(n) == "-" + digits;
    } else {
      var digits := FormatNat(n);
      FormatNatFacts(n);
      assert DigitsValue(digits) == n;
      assert FormatInt(n) == digits;
      assert ParseInt(digits) == Some(DigitsValue(digits));
    }
  }

  /** A minus sign followed by digits parses to the negated value of the
      digits; a minus sign alone does not parse. */
  lemma ParseNegative(digits: string)
    requires AllDigits(digits)
    ensures |digits| == 0 ==> ParseInt("-" + digits) == None
    ensures |digits| > 0 ==> ParseInt("-" + digits) == Some(-(DigitsValue(digits) as int))
  {
    var s := "-" + digits;
    assert s[0] == '-' && s[1..] == digits;
  }

  // ---------------------------------------------------------------- searching

  predicate OccursAt(s: string, sub: string, i: nat)
  {
    i + |sub| <= |s| && s[i..i + |sub|] == sub
  }

  /** Index of the first occurrence of sub in s at or after position from. */
  function IndexFrom(s: string, sub: string, from: nat): (r: Option<nat>)
    decreases |s| - from
    ensures r.Some? ==> from <= r.value && OccursAt(s, sub, r.value)
    ensures r.Some? ==> forall j :: from <= j < r.value ==> !OccursAt(s, sub, j)
    ensures r.None? ==> forall j :: from <= j ==> !OccursAt(s, sub, j)
  {
    if from + |sub| > |s| then None
    else if s[from..from + |sub|] == sub then Some(from)
    else IndexFrom(s, sub, from + 1)
  }

  /** strings.Index. */
  function Index(s: string, sub: string): Option<nat>
  {
    IndexFrom(s, sub, 0)
  }

  /** strings.Contains. */
  predicate Contains(s: string, sub: string)
  {
    Index(s, sub).Some?
  }

  lemma ContainsMeans(s: string, sub: string)
    ensures Contains(s, sub) <==> exists i: nat :: OccursAt(s, sub, i)
  {
    if Contains(s, sub) {
      assert OccursAt(s, sub, Index(s, sub).value);
    }
  }

  /** strings.HasPrefix. */
  predicate HasPrefix(s: string, prefix: string)
  {
    |prefix| <= |s| && s[..|prefix|] == prefix
  }

  // ---------------------------------------------------------------- Split

  /** strings.Split for a non-empty separator: the pieces between successive
      non-overlapping occurrences of sep, scanning from the left. */
  function Split(s: string, sep: string): (parts: seq<string>)
    requires |sep| > 0
    decreases |s|
    ensures |parts| >= 1
  {
    match Index(s, sep)
    case None => [s]
    case Some(i) => [s[..i]] + Split(s[i + |sep|..], sep)
  }

  /** strings.Join. */
  function Join(parts: seq<string>, sep: string): string
  {
    if parts == [] then ""
    else if |parts| == 1 then parts[0]
    else parts[0] + sep + Join(parts[1..], sep)
  }

  /** When the separator's first character does not occur in x, the first
      occurrence of the separator in x + sep + rest is right after x. */
  lemma IndexAfterFreePrefix(x: string, sep: string, rest: string)
    requires |sep| > 0 && sep[0] !in x
    ensures Index(x + sep + rest, sep) == Some(|x|)
  {
    var s := x + sep + rest;
    assert s[|x|..|x| + |sep|] == sep;
    assert OccursAt(s, sep, |x|);
    forall j | 0 <= j < |x|
      ensures !OccursAt(s, sep, j)
    {
      assert s[j] == x[j] != sep[0];
    }
  }

  /** A text without the separator's first character is not split. */
  lemma SplitWithoutSep(s: string, sep: string)
    requires |sep| > 0 && sep[0] !in s
    ensures Split(s, sep) == [s]
  {
    assert Index(s, sep).None?;
  }

  /** No piece holds the character c. */
  predicate PiecesFree(parts: seq<string>, c: char)
  {
    forall k :: 0 <= k < |parts| ==> c !in parts[k]
  }

  /** Splitting the joined pieces gives the pieces back, when no piece holds
      the separator's first character. */
  lemma {:induction false} SplitJoinInverse(parts: seq<string>, sep: string)
    requires |sep| > 0 && |parts| >= 1
    requires PiecesFree(parts, sep[0])
    ensures Split(Join(parts, sep), sep) == parts
  {
    if |parts| == 1 {
      SplitWithoutSep(parts[0], sep);
    } else {
      var x, tailParts := parts[0], parts[1..];
      assert PiecesFree(tailParts, sep[0]) by {
        assert forall k :: 0 <= k < |tailParts| ==> tailParts[k] == parts[k + 1];
      }
      var rest := Join(tailParts, sep);
      assert Join(parts, sep) == x + sep + rest;
      SplitAfterFreePrefix(x, sep, rest);
      SplitJoinInverse(tailParts, sep);
      calc {
        Split(Join(parts, sep), sep);
        Split(x + sep + rest, sep);
        [x] + Split(rest, sep);
        [x] + tailParts;
        parts;
      }
    }
  }

  /** A first piece free of the separator's first character is split off
      whole. */
  lemma SplitAfterFreePrefix(x: string, sep: string, rest: string)
    requires |sep| > 0 && sep[0] !in x
    ensures Split(x + sep + rest, sep) == [x] + Split(rest, sep)
  {
    var s := x + sep + rest;
    IndexAfterFreePrefix(x, sep, rest);
    assert s[..|x|] == x;
    assert s[|x| + |sep|..] == rest;
  }

  /** The decimal rendering holds only digits and a minus sign. */
  lemma FormatIntChars(n: int)
    ensures forall i :: 0 <= i < |FormatInt(n)| ==> IsDigit(FormatInt(n)[i]) || FormatInt(n)[i] == '-'
  {
  }

  /** The text before the first occurrence of sub does not contain sub. */
  lemma PrefixBeforeFirstOccurrence(s: string, sub: string, i: nat)
    requires |sub| > 0 && Index(s, sub) == Some(i)
    ensures !Contains(s[..i], sub)
  {
    forall j: nat
      ensures !OccursAt(s[..i], sub, j)
    {
      if j + |sub| <= i {
        assert s[..i][j..j + |sub|] == s[j..j + |sub|];
        assert !OccursAt(s, sub, j);
      }
    }
    ContainsMeans(s[..i], sub);
  }

  /** Split is undone by Join. */
  lemma {:induction false} SplitJoin(s: string, sep: string)
    requires |sep| > 0
    ensures Join(Split(s, sep), sep) == s
  {
    if Index(s, sep).Some? {
      var i := Index(s, sep).value;
      var rest := s[i + |sep|..];
      var tail := Split(rest, sep);
      assert Split(s, sep) == [s[..i]] + tail;
      SplitJoin(rest, sep);
      JoinCons(s[..i], tail, sep);
      assert s == s[..i] + sep + rest by {
        assert s[i..i + |sep|] == sep;
      }
    }
  }

  lemma JoinCons(x: string, tail: seq<string>, sep: string)
    requires |tail| >= 1
    ensures Join([x] + tail, sep) == x + sep + Join(tail, sep)
  {
    assert ([x] + tail)[1..] == tail;
  }

  /** A joined text holds a character only when a piece or the separator
      does. */
  lemma {:induction false} JoinFree(parts: seq<string>, sep: string, c: char)
    requires PiecesFree(parts, c) && c !in sep
    ensures c !in Join(parts, sep)
  {
    if |parts| > 1 {
      JoinFree(parts[1..], sep, c);
      assert c !in parts[0];
    }
  }

  /** No piece produced by Split contains the separator. */
  lemma {:induction false} SplitPiecesFree(s: string, sep: string)
    requires |sep| > 0
    ensures forall k :: 0 <= k < |Split(s, sep)| ==> !Contains(Split(s, sep)[k], sep)
  {
    match Index(s, sep)
    case None =>
      ContainsMeans(s, sep);
    case Some(i) =>
      var tail := Split(s[i + |sep|..], sep);
      SplitPiecesFree(s[i + |sep|..], sep);
      PrefixBeforeFirstOccurrence(s, sep, i);
      assert Split(s, sep) == [s[..i]] + tail;
  }

  // ---------------------------------------------------------------- white space

  /** unicode.IsSpace restricted to ASCII: space, \t, \n, \v, \f, \r. */
  predicate IsSpace(c: char) { c == ' ' || '\t' <= c <= '\r' }

  /** Length of the leading run of non-space characters. */
  function WordLength(s: string): (n: nat)
    ensures n <= |s|
    ensures forall i :: 0 <= i < n ==> !IsSpace(s[i])
    ensures n < |s| ==> IsSpace(s[n])
  {
    if s == [] || IsSpace(s[0]) then 0 else 1 + WordLength(s[1..])
  }

  /** strings.Fields: the maximal runs of non-space characters, in order. */
  function Fields(s: string): (fields: seq<string>)
    decreases |s|
    ensures forall k :: 0 <= k < |fields| ==> |fields[k]| > 0
    ensures forall k, i :: 0 <= k < |fields| && 0 <= i < |fields[k]| ==> !IsSpace(fields[k][i])
  {
    if s == [] then []
    else if IsSpace(s[0]) then Fields(s[1..])
    else
      var n := WordLength(s);
      [s[..n]] + Fields(s[n..])
  }

  /** strings.TrimSpace: drop leading and trailing white space. */
  function TrimSpace(s: string): (t: string)
    decreases |s|
    ensures |t| > 0 ==> !IsSpace(t[0]) && !IsSpace(t[|t| - 1])
  {
    if s == [] then s
    else if IsSpace(s[0]) then TrimSpace(s[1..])
    else if IsSpace(s[|s| - 1]) then TrimSpace(s[..|s| - 1])
    else s
  }

  // ---------------------------------------------------------------- grids

  /** A grid read line by line is as wide as its first line; indexing a
      shorter line would panic, so every line must reach that width. */
  predicate RowsCoverWidth(rows: seq<string>)
  {
    |rows| > 0 && forall j :: 0 <= j < |rows| ==> |rows[j]| >= |rows[0]|
  }

  // ---------------------------------------------------------------- slices

  predicate NoDuplicates<T(==)>(s: seq<T>)
  {
    forall a, b :: 0 <= a < b < |s| ==> s[a] != s[b]
  }

  /** A slice without duplicates has as many elements as distinct values. */
  lemma {:induction false} DistinctCount<T>(s: seq<T>)
    requires NoDuplicates(s)
    ensures |set x | x in s| == |s|
  {
    if s != [] {
      var init := s[..|s| - 1];
      DistinctCount(init);
      assert (set x | x in s) == (set x | x in init) + {s[|s| - 1]};
      assert s[|s| - 1] !in init;
    }
  }

  // ---------------------------------------------------------------- arithmetic

  lemma MulDiff(x: int, y: int, c: int)
    ensures x * c - y * c == (x - y) * c
  {
  }

  lemma MulAtLeast(x: int, y: int)
    requires x >= 1 && y >= 0
    ensures x * y >= y
  {
  }
}
