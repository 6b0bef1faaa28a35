/** internal/download/torrentfile.go: finding the exact bytes of a torrent's
    top-level `info` value without decoding the file (BEP 3, section "bencoding").

    The scanner is lenient: it accepts any bytes between `i` and `e` and any
    decimal spelling of a string length.  `BencodeLanguage` says what that accepts. */
module Bencode {
  import opened Options

  newtype byte = b: int | 0 <= b < 0x100
  type Bytes = seq<byte>

  const ZERO: byte := 48     // '0'
  const NINE: byte := 57     // '9'
  const COLON: byte := 58    // ':'
  const CH_D: byte := 100    // 'd'
  const CH_E: byte := 101    // 'e'
  const CH_I: byte := 105    // 'i'
  const CH_L: byte := 108    // 'l'
  const INFO: Bytes := [105, 110, 102, 111]

  // ---------- The scanner as functions on offsets ----------

  predicate IsDigit(b: byte) { ZERO <= b <= NINE }

  ghost predicate AllDigits(s: Bytes) { forall k :: 0 <= k < |s| ==> IsDigit(s[k]) }

  function Decimal(s: Bytes): nat
    requires AllDigits(s)
  {
    if s == [] then 0 else Decimal(s[..|s| - 1]) * 10 + (s[|s| - 1] - ZERO) as nat
  }

  /** The first offset at or after `i` that does not hold a digit. */
  function DigitsEnd(data: Bytes, i: nat): (j: nat)
    requires i <= |data|
    ensures i <= j <= |data| && forall k :: i <= k < j ==> IsDigit(data[k])
    ensures j < |data| ==> !IsDigit(data[j])
    decreases |data| - i
  {
    if i < |data| && IsDigit(data[i]) then DigitsEnd(data, i + 1) else i
  }

  /** End of the string `<len>:<bytes>` at `i`.  The source's overflow guard does
      not appear: `BdecodeString` proves that it never changes the answer. */
  function StringEnd(data: Bytes, i: nat): (r: Option<nat>)
    requires i <= |data|
    ensures r.Some? ==> i < r.value <= |data|
  {
    var j := DigitsEnd(data, i);
    if i < j < |data| && data[j] == COLON && j + 1 + Decimal(data[i..j]) <= |data|
    then Some(j + 1 + Decimal(data[i..j])) else None
  }

  function IntEnd(data: Bytes, i: nat): (r: Option<nat>)
    requires i <= |data|
    ensures r.Some? ==> i < r.value <= |data|
    decreases |data| - i
  {
    if i == |data| then None else if data[i] == CH_E then Some(i + 1) else IntEnd(data, i + 1)
  }

  function ValueEnd(data: Bytes, i: nat): (r: Option<nat>)
    requires i <= |data|
    ensures r.Some? ==> i < r.value <= |data|
    decreases |data| - i, 0
  {
    if i == |data| then None
    else if data[i] == CH_I then IntEnd(data, i + 1)
    else if data[i] == CH_L || data[i] == CH_D then ItemsEnd(data, i + 1, data[i] == CH_D)
    else StringEnd(data, i)
  }

  function ItemsEnd(data: Bytes, i: nat, isDict: bool): (r: Option<nat>)
    requires i <= |data|
    ensures r.Some? ==> i < r.value <= |data|
    decreases |data| - i, 1
  {
    if i == |data| then None
    else if data[i] == CH_E then Some(i + 1)
    else
      var key := if isDict then StringEnd(data, i) else Some(i);
      if key.None? then None else
      var end := ValueEnd(data, key.value);
      if end.None? then None else ItemsEnd(data, end.value, isDict)
  }

  /** The bytes handed to SHA-1, scanning top-level entries from `i`. */
  function InfoFrom(data: Bytes, i: nat): Option<Bytes>
    requires i <= |data|
    decreases |data| - i
  {
    if i == |data| || data[i] == CH_E then None else
    var key := StringEnd(data, i);
    if key.None? then None else
    var end := ValueEnd(data, key.value);
    if end.None? then None
    else if StringContent(data, i) == INFO then
      if data[key.value] == CH_D then Some(data[key.value..end.value]) else None
    else InfoFrom(data, end.value)
  }

  function StringContent(data: Bytes, i: nat): Bytes
    requires i <= |data| && StringEnd(data, i).Some?
  {
    data[DigitsEnd(data, i) + 1..StringEnd(data, i).value]
  }

  function InfoBytes(data: Bytes): Option<Bytes> {
    if data == [] || data[0] != CH_D then None else InfoFrom(data, 1)
  }

  // ---------- The source's loops ----------

  lemma DecimalMonotone(s: Bytes, k: nat)
    requires AllDigits(s) && k <= |s|
    ensures Decimal(s[..k]) <= Decimal(s)
    decreases |s| - k
  {
    if k < |s| {
      DecimalMonotone(s, k + 1);
      assert s[..k + 1][..k] == s[..k];
    } else {
      assert s[..k] == s;
    }
  }

  lemma DigitsEndUnique(data: Bytes, i: nat, j: nat)
    requires i <= j <= |data| && AllDigits(data[i..j])
    requires j < |data| ==> !IsDigit(data[j])
    ensures DigitsEnd(data, i) == j
    decreases j - i
  {
    if i < j {
      assert IsDigit(data[i..j][0]);
      assert data[i + 1..j] == data[i..j][1..];
      DigitsEndUnique(data, i + 1, j);
    }
  }

  lemma {:induction false} DigitsReach(data: Bytes, i: nat, j: nat)
    requires i <= j <= |data| && AllDigits(data[i..j])
    ensures j <= DigitsEnd(data, i)
    decreases j - i
  {
    if i < j {
      assert IsDigit(data[i..j][0]);
      assert data[i + 1..j] == data[i..j][1..];
      DigitsReach(data, i + 1, j);
    }
  }

  /** The overflow guard: once the digits read so far exceed the input, no string starts here. */
  lemma LongLength(data: Bytes, start: nat, i: nat)
    requires start <= i <= |data| && AllDigits(data[start..i]) && Decimal(data[start..i]) > |data|
    ensures StringEnd(data, start).None?
  {
    DigitsReach(data, start, i);
    var j := DigitsEnd(data, start);
    assert data[start..j][..i - start] == data[start..i];
    DecimalMonotone(data[start..j], i - start);
  }

  lemma PushDigit(data: Bytes, start: nat, i: nat)
    requires start <= i < |data| && AllDigits(data[start..i]) && IsDigit(data[i])
    ensures AllDigits(data[start..i + 1])
    ensures Decimal(data[start..i + 1]) == Decimal(data[start..i]) * 10 + (data[i] - ZERO) as nat
  {
    assert data[start..i + 1] == data[start..i] + [data[i]];
    assert data[start..i + 1][..i - start] == data[start..i];
  }

  /** `peak` is the largest value the length accumulator ever holds. */
  method BdecodeString(data: Bytes, start: nat) returns (content: Bytes, end: nat, ok: bool, ghost peak: nat)
    requires start <= |data|
    ensures ok == StringEnd(data, start).Some?
    ensures ok ==> end == StringEnd(data, start).value && content == StringContent(data, start)
    ensures peak <= 10 * |data| + 9
  {
    var n, i := 0, start;
    peak := 0;
    while i < |data| && ZERO <= data[i] <= NINE
      invariant start <= i <= |data| && AllDigits(data[start..i])
      invariant n == Decimal(data[start..i]) <= |data|
      invariant peak <= 10 * |data| + 9
    {
      PushDigit(data, start, i);
      n := n * 10 + (data[i] - ZERO) as nat;
      i := i + 1;
      peak := if n > peak then n else peak;
      if n > |data| {
        LongLength(data, start, i);
        return [], 0, false, peak;
      }
    }
    DigitsEndUnique(data, start, i);
    if i == start || i >= |data| || data[i] != COLON {
      return [], 0, false, peak;
    }
    i := i + 1;
    if i + n > |data| {
      return [], 0, false, peak;
    }
    return data[i..i + n], i + n, true, peak;
  }

  method BdecodeSkipValue(data: Bytes, start: nat) returns (end: nat, ok: bool)
    requires start <= |data|
    ensures ok == ValueEnd(data, start).Some?
    ensures ok ==> end == ValueEnd(data, start).value
    decreases |data| - start
  {
    var i := start;
    if i >= |data| {
      return 0, false;
    }
    if data[i] == CH_I {
      i := i + 1;
      while i < |data| && data[i] != CH_E
        invariant start < i <= |data|
        invariant IntEnd(data, start + 1) == IntEnd(data, i)
      {
        i := i + 1;
      }
      if i >= |data| {
        return 0, false;
      }
      return i + 1, true;
    } else if data[i] == CH_L || data[i] == CH_D {
      var isDict := data[i] == CH_D;
      i := i + 1;
      while i < |data| && data[i] != CH_E
        invariant start < i <= |data|
        invariant ItemsEnd(data, start + 1, isDict) == ItemsEnd(data, i, isDict)
        decreases |data| - i
      {
        var good;
        var next := i;
        if isDict {
          var _, after, keyOk, _ := BdecodeString(data, i);
          if !keyOk {
            return 0, false;
          }
          next := after;
        }
        i, good := BdecodeSkipValue(data, next);
        if !good {
          return 0, false;
        }
      }
      if i >= |data| {
        return 0, false;
      }
      return i + 1, true;
    } else {
      var _, e, good, _ := BdecodeString(data, i);
      return e, good;
    }
  }

  /** SHA-1 and its hex rendering are a parameter. */
  method InfohashFromTorrentData(data: Bytes, sha1Hex: Bytes -> string) returns (r: string)
    ensures r == (match InfoBytes(data) case None => "" case Some(span) => sha1Hex(span))
  {
    if |data| == 0 || data[0] != CH_D {
      return "";
    }
    var i := 1;
    while i < |data| && data[i] != CH_E
      invariant 1 <= i <= |data|
      invariant InfoBytes(data) == InfoFrom(data, i)
      decreases |data| - i
    {
      var key, next, ok, _ := BdecodeString(data, i);
      if !ok {
        return "";
      }
      var end, endOk := BdecodeSkipValue(data, next);
      if !endOk {
        return "";
      }
      if key == INFO {
        if data[next] != CH_D {
          return "";
        }
        return sha1Hex(data[next..end]);
      }
      i := end;
    }
    return "";
  }
}
