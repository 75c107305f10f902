/** The name of an aggregate record, "<minute>_<packed ids>", and its way back: decimal
    printing, splitting, decimal parsing and the packing of three 16-bit ids. */
module KeyCodec {
  import opened GoInts
  import opened Types

  datatype AggregateKey = AggregateKey(categoryId: uint16, brandId: uint16, origin: uint16)

  /** Category above brand above origin, 16 bits each. */
  function Encode(key: AggregateKey): uint64 {
    key.categoryId * 0x1_0000_0000 + key.brandId * 0x1_0000 + key.origin
  }

  /** The code packs with shifts and bitwise or. */
  lemma EncodeIsShiftAndOr(key: AggregateKey)
    ensures Encode(key) == Or(Or(Shl64(key.categoryId, 32), Shl64(key.brandId, 16)), key.origin)
  {
    PackedFields(key.categoryId, key.brandId, key.origin);
  }

  lemma PackedFields(category: uint16, brand: uint16, origin: uint16)
    ensures Or(Or(Shl64(category, 32), Shl64(brand, 16)), origin)
            == category * 0x1_0000_0000 + brand * 0x1_0000 + origin
  {
    PowersOfTwo();
    OrDisjoint(32, category, brand * 0x1_0000);
    OrDisjoint(16, category * 0x1_0000 + brand, origin);
    SplitFields(category, brand);
  }

  lemma SplitFields(category: uint16, brand: uint16)
    ensures (category * 0x1_0000 + brand) * 0x1_0000 == category * 0x1_0000_0000 + brand * 0x1_0000
    ensures Shl64(category, 32) == category * Pow2(32) && Shl64(brand, 16) == brand * Pow2(16)
  {
    PowersOfTwo();
  }

  /** The receiver of `decode`, whose three fields it overwrites. */
  class KeyFields {
    var categoryId: uint16
    var brandId: uint16
    var origin: uint16

    constructor ()
      ensures Value() == AggregateKey(0, 0, 0)
    {
      categoryId, brandId, origin := 0, 0, 0;
    }

    function Value(): AggregateKey
      reads this
    {
      AggregateKey(categoryId, brandId, origin)
    }

    /** For any 64-bit number, its three low 16-bit digits. */
    method Decode(packed: uint64)
      modifies this
      ensures Value() == Unpack(packed)
    {
      PowersOfTwo();
      var key := packed;
      origin := ToUint16(key);
      key := Shr64(key, 16);
      brandId := ToUint16(key);
      key := Shr64(key, 16);
      categoryId := ToUint16(key);
      TwoShifts(packed);
    }
  }

  /** The id triple in the low 48 bits of a number. */
  function Unpack(packed: uint64): AggregateKey {
    AggregateKey(packed / 0x1_0000_0000 % 0x1_0000, packed / 0x1_0000 % 0x1_0000, packed % 0x1_0000)
  }

  lemma TwoShifts(x: nat)
    ensures x / 0x1_0000 / 0x1_0000 == x / 0x1_0000_0000
  {
  }

  lemma UnpackEncode(key: AggregateKey)
    ensures Unpack(Encode(key)) == key
  {
    UnpackSum(Encode(key), key);
  }

  lemma UnpackSum(packed: uint64, key: AggregateKey)
    requires packed == key.categoryId * 0x1_0000_0000 + key.brandId * 0x1_0000 + key.origin
    ensures Unpack(packed) == key
  {
    PackedDigits(key.categoryId, key.brandId, key.origin);
  }

  lemma PackedDigits(c: uint16, b: uint16, o: uint16)
    ensures var x := c * 0x1_0000_0000 + b * 0x1_0000 + o;
            x / 0x1_0000_0000 == c && x / 0x1_0000 % 0x1_0000 == b && x % 0x1_0000 == o
  {
    var hi: int := c * 0x1_0000 + b;
    var x: int := hi * 0x1_0000 + o;
    assert x / 0x1_0000 == hi && x % 0x1_0000 == o;
    TwoShifts(x);
  }

  /** Decimal digits of a natural number, most significant first. */
  function Digits(n: nat): (s: string)
    ensures s != "" && forall i :: 0 <= i < |s| ==> '0' <= s[i] <= '9'
  {
    if n < 10 then [DigitChar(n)] else Digits(n / 10) + [DigitChar(n % 10)]
  }

  function DigitChar(d: nat): (c: char)
    requires d < 10
    ensures '0' <= c <= '9'
  {
    '0' + d as char
  }

  /** The `%d` verb. */
  function FormatInt(i: int): string {
    if i < 0 then "-" + Digits(-i) else Digits(i)
  }

  datatype NumError = Syntax | Range

  /** The digit loop of the standard parser, from the left: a bad character or an overflow
      stops it, whichever comes first. */
  function ParseDigits(s: string, n: uint64): Result<uint64, NumError> {
    if s == "" then Ok(n)
    else if !('0' <= s[0] <= '9') then Err(Syntax)
    else
      var m := n * 10 + (s[0] - '0') as int;
      if m >= 0x1_0000_0000_0000_0000 then Err(Range) else ParseDigits(s[1..], m)
  }

  function ParseUint(s: string): Result<uint64, NumError> {
    if s == "" then Err(Syntax) else ParseDigits(s, 0)
  }

  function ParseInt(s: string): Result<int64, NumError> {
    if s == "" then Err(Syntax)
    else
      var negative := s[0] == '-';
      var magnitude := ParseUint(if s[0] == '+' || s[0] == '-' then s[1..] else s);
      match magnitude
      case Err(e) => Err(e)
      case Ok(n) =>
        if !negative && n >= 0x8000_0000_0000_0000 then Err(Range)
        else if negative && n > 0x8000_0000_0000_0000 then Err(Range)
        else Ok(if negative then 0 - n else n)
  }

  /** All pieces of a string between separators. */
  function Split(s: string, sep: char): (pieces: seq<string>)
    ensures pieces != []
  {
    if s == "" then [""]
    else
      var rest := Split(s[1..], sep);
      if s[0] == sep then [""] + rest else [[s[0]] + rest[0]] + rest[1..]
  }

  function ToTs(t: Time): int64 { TruncDiv(Unix(t), 60) }

  function ToKey(ts: int64, key: AggregateKey): string {
    FormatInt(ts) + "_" + FormatInt(Encode(key))
  }

  datatype KeyError = WrongFormat | BadNumber(reason: NumError)

  function DecodeKey(name: string): Result<(int64, uint64), KeyError> {
    var split := Split(name, '_');
    if |split| != 2 then Err(WrongFormat)
    else
      match ParseInt(split[0])
      case Err(e) => Err(BadNumber(e))
      case Ok(ts) =>
        match ParseUint(split[1])
        case Err(e) => Err(BadNumber(e))
        case Ok(packed) => Ok((ts, packed))
  }

  lemma {:induction false} ParseDigitsConcat(a: string, b: string, n: uint64)
    requires ParseDigits(a, n).Ok?
    ensures ParseDigits(a + b, n) == ParseDigits(b, ParseDigits(a, n).value)
  {
    if a == "" {
      assert a + b == b;
    } else {
      assert (a + b)[1..] == a[1..] + b;
      ParseDigitsConcat(a[1..], b, n * 10 + (a[0] - '0') as int);
    }
  }

  lemma {:induction false} ParseDigitsOfDigits(n: uint64)
    ensures ParseDigits(Digits(n), 0) == Ok(n)
  {
    if n < 10 {
      assert Digits(n)[1..] == "";
    } else {
      ParseDigitsOfDigits(n / 10);
      ParseDigitsConcat(Digits(n / 10), [DigitChar(n % 10)], 0);
      assert [DigitChar(n % 10)][1..] == "";
    }
  }

  lemma ParseIntOfFormat(ts: int64)
    ensures ParseInt(FormatInt(ts)) == Ok(ts)
  {
    if ts < 0 {
      var magnitude: uint64 := 0 - ts;
      ParseDigitsOfDigits(magnitude);
      assert FormatInt(ts)[1..] == Digits(magnitude);
    } else {
      ParseDigitsOfDigits(ts);
    }
  }

  lemma {:induction false} SplitWithout(a: string, sep: char)
    requires sep !in a
    ensures Split(a, sep) == [a]
  {
    if a != "" {
      SplitWithout(a[1..], sep);
      assert [a[0]] + a[1..] == a;
    }
  }

  lemma {:induction false} SplitAtFirst(a: string, sep: char, b: string)
    requires sep !in a
    ensures Split(a + [sep] + b, sep) == [a] + Split(b, sep)
  {
    if a == "" {
      assert (a + [sep] + b)[1..] == b;
    } else {
      assert (a + [sep] + b)[1..] == a[1..] + [sep] + b;
      SplitAtFirst(a[1..], sep, b);
      assert [a[0]] + a[1..] == a;
      assert ([a[1..]] + Split(b, sep))[1..] == Split(b, sep);
    }
  }

  // ---------- what the parsers accept ----------

  predicate AllDigits(s: string) {
    forall i :: 0 <= i < |s| ==> '0' <= s[i] <= '9'
  }

  /** The number a string of digits stands for. */
  function DecimalValue(s: string): nat
    requires AllDigits(s)
  {
    if s == "" then 0 else 10 * DecimalValue(s[..|s| - 1]) + (s[|s| - 1] - '0') as int
  }

  lemma {:induction false} PrefixError(a: string, b: string, n: uint64)
    requires ParseDigits(a, n).Err?
    ensures ParseDigits(a + b, n).Err?
  {
    assert (a + b)[0] == a[0] && (a + b)[1..] == a[1..] + b;
    if '0' <= a[0] <= '9' && n * 10 + (a[0] - '0') as int < 0x1_0000_0000_0000_0000 {
      PrefixError(a[1..], b, n * 10 + (a[0] - '0') as int);
    }
  }

  lemma OneDigit(c: char, n: uint64)
    ensures ParseDigits([c], n).Ok? <==> '0' <= c <= '9' && n * 10 + (c - '0') as int < 0x1_0000_0000_0000_0000
    ensures ParseDigits([c], n).Ok? ==> ParseDigits([c], n).value == n * 10 + (c - '0') as int
  {
    assert [c][1..] == "";
  }

  /** The digit loop, which goes from the left and stops at an overflow, accepts exactly the
      strings of digits whose value fits, and yields that value. */
  lemma {:induction false} ParseDigitsIff(s: string)
    ensures ParseDigits(s, 0).Ok? <==> AllDigits(s) && DecimalValue(s) < 0x1_0000_0000_0000_0000
    ensures ParseDigits(s, 0).Ok? ==> ParseDigits(s, 0).value == DecimalValue(s)
  {
    if s != "" {
      var front, last := s[..|s| - 1], s[|s| - 1];
      assert s == front + [last];
      ParseDigitsIff(front);
      if ParseDigits(front, 0).Ok? {
        ParseDigitsConcat(front, [last], 0);
        OneDigit(last, ParseDigits(front, 0).value);
      } else {
        PrefixError(front, [last], 0);
      }
      assert AllDigits(s) ==> AllDigits(front);
    }
  }

  /** Unsigned: some digits, and no more than 2^64 - 1. */
  lemma ParseUintIff(s: string)
    ensures ParseUint(s).Ok? <==> s != "" && AllDigits(s) && DecimalValue(s) < 0x1_0000_0000_0000_0000
    ensures ParseUint(s).Ok? ==> ParseUint(s).value == DecimalValue(s)
  {
    ParseDigitsIff(s);
  }

  function SignedValue(sign: string, digits: string): int
    requires AllDigits(digits)
  {
    if sign == "-" then 0 - DecimalValue(digits) else DecimalValue(digits)
  }

  /** Signed: at most one sign, then some digits, and the value fits an int64. */
  lemma ParseIntIff(s: string, sign: string, digits: string)
    requires s == sign + digits && (sign == "" || sign == "+" || sign == "-")
    requires AllDigits(digits)
    ensures var v := SignedValue(sign, digits);
            if digits == "" then ParseInt(s) == Err(Syntax)
            else if -0x8000_0000_0000_0000 <= v < 0x8000_0000_0000_0000 then ParseInt(s) == Ok(v)
            else ParseInt(s).Err?
  {
    ParseUintIff(digits);
    if sign == "" {
      assert s == digits;
    } else {
      assert s[0] == sign[0] && s[1..] == digits;
    }
  }

  lemma ParseIntNeedsDigits(s: string)
    requires ParseInt(s).Ok?
    ensures AllDigits(s) || (AllDigits(s[1..]) && (s[0] == '+' || s[0] == '-'))
  {
    ParseUintIff(if s[0] == '+' || s[0] == '-' then s[1..] else s);
  }

  /** A string has one piece more than separators. */
  lemma {:induction false} SplitLength(s: string, sep: char)
    ensures |Split(s, sep)| == multiset(s)[sep] + 1
  {
    if s != "" {
      SplitLength(s[1..], sep);
      assert s == [s[0]] + s[1..];
    }
  }

  /** A name is of the wrong format exactly if it does not have one underscore, */
  lemma WrongFormatIff(name: string)
    ensures DecodeKey(name) == Err(WrongFormat) <==> multiset(name)['_'] != 1
  {
    SplitLength(name, '_');
  }

  /** and otherwise what is before it is read as the minute and what is behind it as the ids;
      the first number that cannot be read is the error. */
  lemma DecodeKeyOfPieces(left: string, right: string)
    requires '_' !in left && '_' !in right
    ensures DecodeKey(left + "_" + right)
            == if ParseInt(left).Err? then Err(BadNumber(ParseInt(left).error))
               else if ParseUint(right).Err? then Err(BadNumber(ParseUint(right).error))
               else Ok((ParseInt(left).value, ParseUint(right).value))
  {
    assert left + "_" + right == left + ['_'] + right;
    SplitAtFirst(left, '_', right);
    SplitWithout(right, '_');
  }

  /** The minute comes first, in decimal, then the ids, category in the highest bits. */
  lemma NameExample()
    ensures ToKey(-12, AggregateKey(1, 2, 3)) == "-12_4295098371"
  {
    DigitsOf12();
    DigitsExample();
  }

  lemma DigitsOf12()
    ensures Digits(12) == "12"
  {
    assert Digits(1) == "1";
  }

  lemma DigitsExample()
    ensures Digits(4295098371) == "4295098371"
  {
    assert Digits(4) == "4";
    assert Digits(42) == "42";
    assert Digits(429) == "429";
    assert Digits(4295) == "4295";
    assert Digits(42950) == "42950";
    assert Digits(429509) == "429509";
    assert Digits(4295098) == "4295098";
    assert Digits(42950983) == "42950983";
    assert Digits(429509837) == "429509837";
  }

  /** For every 64-bit minute, negative ones included, and every id triple the name of a
      record parses back to exactly what it was made from. */
  lemma KeyRoundTrip(ts: int64, key: AggregateKey)
    ensures DecodeKey(ToKey(ts, key)) == Ok((ts, Encode(key)))
    ensures Unpack(Encode(key)) == key
  {
    var left, right := FormatInt(ts), FormatInt(Encode(key));
    assert '_' !in left && '_' !in right;
    assert ToKey(ts, key) == left + ['_'] + right;
    SplitAtFirst(left, '_', right);
    SplitWithout(right, '_');
    ParseIntOfFormat(ts);
    ParseDigitsOfDigits(Encode(key));
    UnpackEncode(key);
  }

  lemma ToKeyInjective(ts1: int64, key1: AggregateKey, ts2: int64, key2: AggregateKey)
    requires ToKey(ts1, key1) == ToKey(ts2, key2)
    ensures ts1 == ts2 && key1 == key2
  {
    KeyRoundTrip(ts1, key1);
    KeyRoundTrip(ts2, key2);
  }

  /** Truncating division puts a second into the minute that contains it exactly from the
      epoch on and on the minute boundaries before it. */
  lemma BucketIsItsMinuteIff(t: Time)
    ensures ToTs(t) == Unix(t) / 60 <==> Unix(t) >= 0 || Unix(t) % 60 == 0
  {
  }

  /** Every bucket after minute zero is exactly the sixty seconds it names, whatever the
      time; bucket zero also collects the 59 whole seconds before the epoch. */
  lemma BucketInterval(t: Time, minute: nat)
    ensures minute > 0 ==> (ToTs(t) == minute <==> 60 * minute <= Unix(t) < 60 * minute + 60)
    ensures minute == 0 ==> (ToTs(t) == minute <==> -60 < Unix(t) < 60)
  {
  }
}
