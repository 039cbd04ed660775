/** The text of an audit cursor: "1", the position's time in Unix nanoseconds and its id,
    joined by dots. The base64 around it is taken as invertible (section 5 of RFC 4648). */
module Cursor {
  import opened Basics

  /** A place in the log's order: the time alone is not unique, the pair is the primary
      key. The time is in nanoseconds since the epoch, and may be out of a machine
      integer's range. Ids are 16 bytes; as big-endian numbers they compare as they do. */
  datatype Position = Position(ts: int, id: nat)

  function Pow16(n: nat): (p: nat)
    ensures p > 0
  {
    if n == 0 then 1 else 16 * Pow16(n - 1)
  }

  predicate IsId(id: nat) {
    id < Pow16(32)
  }

  predicate FitsInt64(n: int) {
    -0x8000_0000_0000_0000 <= n < 0x8000_0000_0000_0000
  }

  /** Signed 64-bit wrap-around, as UnixNano has it out of range. */
  function Wrap(n: int): (r: int)
    ensures FitsInt64(r) && (r == n <==> FitsInt64(n))
  {
    (n + 0x8000_0000_0000_0000) % 0x1_0000_0000_0000_0000 - 0x8000_0000_0000_0000
  }

  // ---------------------------------------------------------------- numbers

  function DigitChar(d: nat): char
    requires d < 10
  {
    (('0' as int) + d) as char
  }

  function DigitOf(c: char): Option<nat> {
    if '0' <= c <= '9' then Some((c as int) - ('0' as int)) else None
  }

  function Digits(n: nat): string {
    if n < 10 then [DigitChar(n)] else Digits(n / 10) + [DigitChar(n % 10)]
  }

  function ParseDigits(s: string): Option<nat> {
    if s == "" then None
    else
      var last := DigitOf(s[|s| - 1]);
      if last.None? then None
      else if |s| == 1 then last
      else
        var front := ParseDigits(s[..|s| - 1]);
        if front.None? then None else Some(front.value * 10 + last.value)
  }

  function FormatInt(n: int): string {
    if n < 0 then "-" + Digits(-n) else Digits(n)
  }

  /** An optional sign, at least one digit, and a value that fits. */
  function ParseInt(s: string): Option<int> {
    if s == "" then None
    else
      var signed := s[0] == '-' || s[0] == '+';
      var magnitude := ParseDigits(if signed then s[1..] else s);
      if magnitude.None? then None
      else
        var m: int := magnitude.value;
        var n := if s[0] == '-' then -m else m;
        if FitsInt64(n) then Some(n) else None
  }

  lemma {:induction false} DigitsParse(n: nat)
    ensures ParseDigits(Digits(n)) == Some(n)
    ensures Digits(n) != "" && forall i :: 0 <= i < |Digits(n)| ==> '0' <= Digits(n)[i] <= '9'
  {
    if n >= 10 {
      DigitsParse(n / 10);
      var s := Digits(n);
      assert s[..|s| - 1] == Digits(n / 10);
    }
  }

  lemma IntParses(n: int)
    ensures ParseInt(FormatInt(n)) == if FitsInt64(n) then Some(n) else None
    ensures '.' !in FormatInt(n)
  {
    var m := if n < 0 then -n else n;
    DigitsParse(m);
    if n < 0 {
      assert ("-" + Digits(m))[1..] == Digits(m);
    }
  }

  // ---------------------------------------------------------------- ids

  function HexChar(d: nat): char
    requires d < 16
  {
    if d < 10 then DigitChar(d) else (('a' as int) + (d - 10)) as char
  }

  function HexOf(c: char): Option<nat> {
    if '0' <= c <= '9' then Some((c as int) - ('0' as int))
    else if 'a' <= c <= 'f' then Some((c as int) - ('a' as int) + 10)
    else if 'A' <= c <= 'F' then Some((c as int) - ('A' as int) + 10)
    else None
  }

  /** Capitals are read, and as small letters are; no other character is a digit. */
  lemma HexIs(c: char)
    ensures 'a' <= c <= 'f' ==> HexOf(((c as int) - 32) as char) == HexOf(c) == Some((c as int) - 87)
    ensures '0' <= c <= '9' ==> HexOf(c) == Some((c as int) - 48)
    ensures HexOf(c).Some? <==> '0' <= c <= '9' || 'a' <= c <= 'f' || 'A' <= c <= 'F'
  {
  }

  predicate DashAt(i: nat) {
    i == 8 || i == 13 || i == 18 || i == 23
  }

  predicate AreHex(digits: seq<nat>) {
    forall i :: 0 <= i < |digits| ==> digits[i] < 16
  }

  /** The last n hexadecimal digits of an id. */
  function HexDigits(id: nat, n: nat): (digits: seq<nat>)
    ensures |digits| == n && AreHex(digits)
  {
    if n == 0 then [] else HexDigits(id / 16, n - 1) + [id % 16]
  }

  function FromHex(digits: seq<nat>): nat
    requires AreHex(digits)
  {
    if digits == [] then 0 else FromHex(digits[..|digits| - 1]) * 16 + digits[|digits| - 1]
  }

  lemma {:induction false} HexReturns(id: nat, n: nat)
    requires id < Pow16(n)
    ensures FromHex(HexDigits(id, n)) == id
  {
    if n > 0 {
      HexReturns(id / 16, n - 1);
      var digits := HexDigits(id, n);
      assert digits[..n - 1] == HexDigits(id / 16, n - 1);
    }
  }

  lemma {:induction false} DigitsReturn(digits: seq<nat>)
    requires AreHex(digits)
    ensures FromHex(digits) < Pow16(|digits|) && HexDigits(FromHex(digits), |digits|) == digits
  {
    if digits != [] {
      var front, last := digits[..|digits| - 1], digits[|digits| - 1];
      DigitsReturn(front);
      assert digits == front + [last];
      assert FromHex(digits) / 16 == FromHex(front) && FromHex(digits) % 16 == last;
    }
  }

  /** Which hexadecimal digit stands at a place that is not a dash. */
  function DigitIndex(i: nat): int {
    i - (if i > 23 then 4 else if i > 18 then 3 else if i > 13 then 2 else if i > 8 then 1 else 0)
  }

  /** Where a hexadecimal digit stands. */
  function PlaceOf(k: nat): (i: nat)
    ensures !DashAt(i) && DigitIndex(i) == k && (k < 32 ==> i < 36)
  {
    k + (if k >= 20 then 4 else if k >= 16 then 3 else if k >= 12 then 2 else if k >= 8 then 1 else 0)
  }

  function FormatId(id: nat): (s: string)
    ensures |s| == 36
    ensures var digits := HexDigits(id, 32);
            forall i :: 0 <= i < 36 ==>
              0 <= DigitIndex(i) && (!DashAt(i) ==> DigitIndex(i) < 32)
              && s[i] == if DashAt(i) then '-' else HexChar(digits[DigitIndex(i)])
  {
    var digits := HexDigits(id, 32);
    seq(36, i requires 0 <= i < 36 =>
      if DashAt(i) then '-' else (assert 0 <= DigitIndex(i) < 32; HexChar(digits[DigitIndex(i)])))
  }

  predicate IsFormatted(s: string) {
    && |s| == 36
    && forall i :: 0 <= i < 36 ==> if DashAt(i) then s[i] == '-' else HexOf(s[i]).Some?
  }

  function HexIn(s: string): (digits: seq<nat>)
    requires IsFormatted(s)
    ensures |digits| == 32 && AreHex(digits)
    ensures forall k :: 0 <= k < 32 ==> Some(digits[k]) == HexOf(s[PlaceOf(k)])
  {
    seq(32, k requires 0 <= k < 32 =>
      var i := PlaceOf(k);
      assert HexOf(s[i]).Some?;
      HexOf(s[i]).value)
  }

  function ParseId(s: string): (id: Option<nat>)
    ensures id.Some? ==> IsId(id.value)
  {
    if !IsFormatted(s) then None
    else
      var digits := HexIn(s);
      DigitsReturn(digits);
      Some(FromHex(digits))
  }

  lemma IdParses(id: nat)
    requires IsId(id)
    ensures ParseId(FormatId(id)) == Some(id)
    ensures '.' !in FormatId(id)
  {
    hide HexDigits, FromHex, Pow16;
    var s, digits := FormatId(id), HexDigits(id, 32);
    assert forall i :: 0 <= i < 36 && !DashAt(i) ==> HexOf(s[i]) == Some(digits[DigitIndex(i)]);
    forall k | 0 <= k < 32 ensures HexOf(s[PlaceOf(k)]) == Some(digits[k]) {
      assert DigitIndex(PlaceOf(k)) == k;
    }
    assert HexIn(s) == digits;
    HexReturns(id, 32);
  }

  // ---------------------------------------------------------------- the whole

  /** The text cut at its dots. */
  function Split(s: string): (parts: seq<string>)
    ensures parts != []
  {
    if s == "" then [""]
    else if s[0] == '.' then [""] + Split(s[1..])
    else
      var rest := Split(s[1..]);
      [[s[0]] + rest[0]] + rest[1..]
  }

  lemma {:induction false} SplitAtDot(a: string, b: string)
    requires '.' !in a
    ensures Split(a + "." + b) == [a] + Split(b)
  {
    var s := a + "." + b;
    if a == "" {
      assert s[1..] == b;
    } else {
      SplitAtDot(a[1..], b);
      assert s[1..] == a[1..] + "." + b;
      assert [a[0]] + a[1..] == a;
    }
  }

  lemma {:induction false} SplitNoDot(a: string)
    requires '.' !in a
    ensures Split(a) == [a]
  {
    if a != "" {
      SplitNoDot(a[1..]);
      assert [a[0]] + a[1..] == a;
    }
  }

  function Encode(p: Position): string
    requires IsId(p.id)
  {
    "1" + "." + (FormatInt(Wrap(p.ts)) + "." + FormatId(p.id))
  }

  function Decode(s: string): (p: Option<Position>)
    ensures p.Some? ==> IsId(p.value.id) && FitsInt64(p.value.ts)
  {
    var parts := Split(s);
    if |parts| != 3 || parts[0] != "1" then None
    else
      var nanos := ParseInt(parts[1]);
      var id := ParseId(parts[2]);
      if nanos.None? || id.None? then None else Some(Position(nanos.value, id.value))
  }

  lemma EncodeSplits(p: Position)
    requires IsId(p.id)
    ensures Split(Encode(p)) == ["1", FormatInt(Wrap(p.ts)), FormatId(p.id)]
  {
    var nanos, id := FormatInt(Wrap(p.ts)), FormatId(p.id);
    IntParses(Wrap(p.ts));
    IdParses(p.id);
    SplitAtDot("1", nanos + "." + id);
    SplitAtDot(nanos, id);
    SplitNoDot(id);
  }

  lemma EncodeDecodes(p: Position)
    requires IsId(p.id)
    ensures Decode(Encode(p)) == Some(Position(Wrap(p.ts), p.id))
  {
    EncodeSplits(p);
    IntParses(Wrap(p.ts));
    IdParses(p.id);
  }

  /** A position comes back exactly when its time fits the machine integer it is sent as; any
      other comes back whole turns of that integer off. */
  lemma RoundTripIff(p: Position)
    requires p.id < 0x1_0000_0000_0000_0000_0000_0000_0000_0000
    ensures IsId(p.id)
    ensures Decode(Encode(p)) == Some(p) <==> -9_223_372_036_854_775_808 <= p.ts <= 9_223_372_036_854_775_807
    ensures Decode(Encode(p)).Some? && Decode(Encode(p)).value.id == p.id
    ensures (Decode(Encode(p)).value.ts - p.ts) % 18_446_744_073_709_551_616 == 0
  {
    IdsAre();
    EncodeDecodes(p);
  }

  lemma IdsAre()
    ensures forall id: nat :: IsId(id) <==> id < 0x1_0000_0000_0000_0000_0000_0000_0000_0000
  {
    assert Pow16(8) == 0x1_0000_0000;
    PowersMultiply(8, 8);
    PowersMultiply(16, 16);
  }

  lemma {:induction false} PowersMultiply(m: nat, n: nat)
    ensures Pow16(m + n) == Pow16(m) * Pow16(n)
  {
    if n > 0 {
      PowersMultiply(m, n - 1);
      assert Pow16(m) * (16 * Pow16(n - 1)) == 16 * (Pow16(m) * Pow16(n - 1));
    }
  }

  /** To the letter: version, decimal number and dashed lower-case id, the last digits of
      both being the lowest. */
  lemma TextIs(p: Position)
    requires IsId(p.id) && FitsInt64(p.ts)
    ensures var s, size := Encode(p), if p.ts < 0 then -p.ts else p.ts;
            var number, id := s[2..|s| - 37], s[|s| - 36..];
            && |s| > 39 && s[..2] == "1." && s[|s| - 37] == '.'
            && (number[0] == '-' <==> p.ts < 0) && number[|number| - 1] == "0123456789"[size % 10]
            && (size < 10 <==> |number| == if p.ts < 0 then 2 else 1)
            && id[8] == id[13] == id[18] == id[23] == '-' && id[35] == "0123456789abcdef"[p.id % 16]
  {
    var number, id := FormatInt(p.ts), FormatId(p.id);
    NumberEnds(p.ts);
    IdEnds(p.id);
    hide FormatInt, FormatId;
    InThree(number, id);
    assert Encode(p) == "1" + "." + (number + "." + id);
  }

  lemma InThree(number: string, id: string)
    ensures var s := "1" + "." + (number + "." + id);
            && |s| == |number| + |id| + 3 && s[..2] == "1." && s[2..|s| - |id| - 1] == number
            && s[|s| - |id| - 1] == '.' && s[|s| - |id|..] == id
  {
  }

  lemma NumberEnds(n: int)
    ensures var number, size := FormatInt(n), if n < 0 then -n else n;
            && number != "" && (number[0] == '-' <==> n < 0)
            && number[|number| - 1] == "0123456789"[size % 10]
            && (size < 10 <==> |number| == if n < 0 then 2 else 1)
  {
    DigitsParse(if n < 0 then -n else n);
    LastDigit(if n < 0 then -n else n);
  }

  lemma IdEnds(id: nat)
    ensures var s := FormatId(id);
            s[8] == s[13] == s[18] == s[23] == '-' && s[35] == "0123456789abcdef"[id % 16]
  {
    var digits := HexDigits(id, 32);
    assert digits[31] == id % 16;
  }

  lemma LastDigit(n: nat)
    ensures |Digits(n)| > 0 && Digits(n)[|Digits(n)| - 1] == "0123456789"[n % 10]
    ensures n < 10 <==> |Digits(n)| == 1
  {
    if n >= 10 {
      LastDigit(n / 10);
    }
  }

  // ---------------------------------------------------------------- what is written

  /** Digits without a sign or a leading zero. */
  predicate PlainDigits(s: string) {
    s != "" && (forall i :: 0 <= i < |s| ==> '0' <= s[i] <= '9') && (|s| > 1 ==> s[0] != '0')
  }

  /** No plus sign, no leading zero, and no minus sign before zero. */
  predicate PlainInt(s: string) {
    if s != "" && s[0] == '-' then PlainDigits(s[1..]) && s[1] != '0' else PlainDigits(s)
  }

  /** Lower-case digits, with dashes where they belong. */
  predicate PlainId(s: string) {
    && |s| == 36
    && forall i :: 0 <= i < 36 ==>
        if DashAt(i) then s[i] == '-' else '0' <= s[i] <= '9' || 'a' <= s[i] <= 'f'
  }

  lemma {:induction false} DigitsArePlain(n: nat)
    ensures PlainDigits(Digits(n)) && (Digits(n)[0] == '0' <==> n == 0)
  {
    if n >= 10 {
      DigitsArePlain(n / 10);
    }
  }

  lemma IntIsPlain(n: int)
    ensures PlainInt(FormatInt(n))
  {
    var m := if n < 0 then -n else n;
    DigitsArePlain(m);
    if n < 0 {
      assert FormatInt(n)[1..] == Digits(m);
    }
  }

  lemma OneMoreDigit(n: nat, c: char)
    requires n > 0 && '0' <= c <= '9'
    ensures Digits(n * 10 + DigitOf(c).value) == Digits(n) + [c]
  {
    var d := DigitOf(c).value;
    assert (n * 10 + d) / 10 == n && (n * 10 + d) % 10 == d;
  }

  lemma {:induction false} PlainDigitsReturn(s: string)
    requires PlainDigits(s)
    ensures ParseDigits(s).Some? && Digits(ParseDigits(s).value) == s
    ensures s[0] != '0' ==> ParseDigits(s).value > 0
  {
    var front, last := s[..|s| - 1], s[|s| - 1];
    if |s| > 1 {
      PlainDigitsReturn(front);
      OneMoreDigit(ParseDigits(front).value, last);
      assert s == front + [last];
    }
  }

  lemma PlainIntReturns(s: string)
    requires PlainInt(s) && ParseInt(s).Some?
    ensures FormatInt(ParseInt(s).value) == s
  {
    hide Digits, ParseDigits;
    if s[0] == '-' {
      PlainDigitsReturn(s[1..]);
      assert s == "-" + s[1..];
    } else {
      PlainDigitsReturn(s);
    }
  }

  lemma PlainIdReturns(s: string)
    requires PlainId(s) && ParseId(s).Some?
    ensures FormatId(ParseId(s).value) == s
  {
    hide HexDigits, FromHex, Pow16;
    var id, digits := ParseId(s).value, HexIn(s);
    DigitsReturn(digits);
    forall i | 0 <= i < 36 ensures FormatId(id)[i] == s[i] {
      if !DashAt(i) {
        assert PlaceOf(DigitIndex(i)) == i;
        assert HexChar(HexOf(s[i]).value) == s[i];
      }
    }
  }

  function Join(parts: seq<string>): string
    requires parts != []
  {
    if |parts| == 1 then parts[0] else parts[0] + "." + Join(parts[1..])
  }

  lemma {:induction false} SplitJoins(s: string)
    ensures Join(Split(s)) == s
  {
    if s != "" {
      SplitJoins(s[1..]);
      var rest := Split(s[1..]);
      assert s == [s[0]] + s[1..];
      if s[0] == '.' {
        assert ([""] + rest)[1..] == rest;
      } else {
        assert ([[s[0]] + rest[0]] + rest[1..])[1..] == rest[1..];
      }
    }
  }

  lemma ThreeParts(s: string)
    requires |Split(s)| == 3
    ensures s == Split(s)[0] + "." + (Split(s)[1] + "." + Split(s)[2])
  {
    hide Split;
    var parts := Split(s);
    SplitJoins(s);
    assert Join(parts[1..]) == parts[1] + "." + Join(parts[1..][1..]);
    assert parts[1..][1..] == [parts[2]];
  }

  lemma PlainIsWritten(s: string)
    requires Decode(s).Some? && PlainInt(Split(s)[1]) && PlainId(Split(s)[2])
    ensures Encode(Decode(s).value) == s
  {
    hide Split, PlainInt, PlainId, ParseInt, ParseId, FormatInt, FormatId;
    PlainIntReturns(Split(s)[1]);
    PlainIdReturns(Split(s)[2]);
    ThreeParts(s);
  }

  /** The decoder refuses all it did not write, but for this: it also takes a number that
      has a plus sign, leading zeros or a minus sign before zero, and an id in capitals. */
  lemma WrittenIff(s: string)
    ensures (exists p: Position :: IsId(p.id) && Encode(p) == s)
            <==> Decode(s).Some? && PlainInt(Split(s)[1]) && PlainId(Split(s)[2])
  {
    forall p: Position | IsId(p.id) && Encode(p) == s
      ensures Decode(s).Some? && PlainInt(Split(s)[1]) && PlainId(Split(s)[2])
    {
      EncodeDecodes(p);
      EncodeSplits(p);
      IntIsPlain(Wrap(p.ts));
    }
    if Decode(s).Some? && PlainInt(Split(s)[1]) && PlainId(Split(s)[2]) {
      PlainIsWritten(s);
    }
  }

  /** Such texts there are, for every id and for times of any size: here, each written time
      that is not negative with a plus sign before it, and with a zero. */
  lemma DecodesMoreThanWritten(n: nat, id: nat, extra: char)
    requires IsId(id) && FitsInt64(n) && (extra == '+' || extra == '0')
    ensures var s := "1" + "." + ([extra] + FormatInt(n) + "." + FormatId(id));
            Decode(s) == Some(Position(n, id)) && forall p: Position | IsId(p.id) :: Encode(p) != s
  {
    hide FormatInt, FormatId, PlainInt, PlainId, ParseId, Encode, IsId;
    var number, text := [extra] + FormatInt(n), FormatId(id);
    var s := "1" + "." + (number + "." + text);
    IntParses(n);
    IdParses(id);
    SplitAtDot("1", number + "." + text);
    SplitAtDot(number, text);
    SplitNoDot(text);
    ExtraParses(n, extra);
    assert Split(s) == ["1", number, text];
    WrittenIff(s);
  }

  lemma {:induction false} ZeroParses(s: string)
    requires s != ""
    ensures ParseDigits("0" + s) == ParseDigits(s)
  {
    var t := "0" + s;
    assert t[|t| - 1] == s[|s| - 1] && t[..|t| - 1] == "0" + s[..|s| - 1];
    if |s| > 1 {
      ZeroParses(s[..|s| - 1]);
    } else {
      assert t[..|t| - 1] == "0" && ParseDigits("0") == Some(0);
    }
  }

  lemma ExtraParses(n: nat, extra: char)
    requires FitsInt64(n) && (extra == '+' || extra == '0')
    ensures ParseInt([extra] + FormatInt(n)) == Some(n) && !PlainInt([extra] + FormatInt(n))
  {
    DigitsParse(n);
    if extra == '0' {
      ZeroParses(Digits(n));
      assert [extra] == "0";
    } else {
      assert ([extra] + Digits(n))[1..] == Digits(n);
    }
  }
}
