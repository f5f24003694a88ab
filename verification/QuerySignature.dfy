/** The query string that `QuerySignatureV2AuthHandler._calc_signature` signs and sends, against a
    percent-decoder (section 2.1 of RFC 3986). */
module QuerySignature {
  import opened Common

  type Byte = b: int | 0 <= b < 256

  type Text = seq<Byte>

  const AMPERSAND: Byte := 38
  const EQUALS: Byte := 61
  const PERCENT: Byte := 37
  const TILDE: Byte := 126

  // ---- urllib.quote ------------------------------------------------------------------

  predicate IsDigit(b: Byte) { 48 <= b <= 57 }

  predicate IsUpper(b: Byte) { 65 <= b <= 90 }

  predicate IsLower(b: Byte) { 97 <= b <= 122 }

  /** Letters, digits, `_`, `.` and `-` are never quoted; values leave `~` alone too. */
  predicate Safe(b: Byte, tilde: bool) {
    IsDigit(b) || IsUpper(b) || IsLower(b) || b == 95 || b == 46 || b == 45 || (tilde && b == TILDE)
  }

  function HexDigit(d: int): Byte
    requires 0 <= d < 16
  {
    if d < 10 then 48 + d else 55 + d
  }

  function QuoteByte(b: Byte, tilde: bool): Text {
    if Safe(b, tilde) then [b] else [PERCENT, HexDigit(b / 16), HexDigit(b % 16)]
  }

  function Quote(s: Text, tilde: bool): Text {
    if s == [] then [] else QuoteByte(s[0], tilde) + Quote(s[1..], tilde)
  }

  // ---- The reader --------------------------------------------------------------------

  function HexValue(b: Byte): Option<int> {
    if IsDigit(b) then Some(b - 48)
    else if 65 <= b <= 70 then Some(b - 55)
    else if 97 <= b <= 102 then Some(b - 87)
    else None
  }

  /** Percent-decoding; a `%` that is not followed by two hexadecimal digits stands for itself. */
  function Unquote(s: Text): Text
    decreases |s|
  {
    if s == [] then []
    else if s[0] == PERCENT && |s| > 2 && HexValue(s[1]).Some? && HexValue(s[2]).Some? then
      [16 * HexValue(s[1]).value + HexValue(s[2]).value] + Unquote(s[3..])
    else [s[0]] + Unquote(s[1..])
  }

  function Split(s: Text, c: Byte): (parts: seq<Text>)
    ensures parts != []
  {
    if s == [] then [[]]
    else
      var rest := Split(s[1..], c);
      if s[0] == c then [[]] + rest else [[s[0]] + rest[0]] + rest[1..]
  }

  datatype Parameter = Parameter(key: Text, value: Text)

  function ReadPair(s: Text): Parameter {
    var parts := Split(s, EQUALS);
    Parameter(Unquote(parts[0]), if |parts| > 1 then Unquote(parts[1]) else [])
  }

  function ReadQuery(s: Text): seq<Parameter> {
    var parts := Split(s, AMPERSAND);
    seq(|parts|, i requires 0 <= i < |parts| => ReadPair(parts[i]))
  }

  // ---- The writer --------------------------------------------------------------------

  /** Byte-wise lexicographic order, the order of `keys.sort()`. */
  predicate Leq(a: Text, b: Text) {
    a == [] || (b != [] && (a[0] < b[0] || (a[0] == b[0] && Leq(a[1..], b[1..]))))
  }

  function Insert(k: Text, ks: seq<Text>): seq<Text> {
    if ks == [] || Leq(k, ks[0]) then [k] + ks else [ks[0]] + Insert(k, ks[1..])
  }

  function Sort(ks: seq<Text>): seq<Text> {
    if ks == [] then [] else Insert(ks[0], Sort(ks[1..]))
  }

  function WritePair(key: Text, value: Text): Text {
    Quote(key, false) + [EQUALS] + Quote(value, true)
  }

  /** `'&'.join(pairs)`. */
  function Join(parts: seq<Text>): Text {
    if parts == [] then [] else if |parts| == 1 then parts[0] else parts[0] + [AMPERSAND] + Join(parts[1..])
  }

  ghost predicate Enumerates(keys: seq<Text>, params: map<Text, Text>) {
    && (forall i, j :: 0 <= i < j < |keys| ==> keys[i] != keys[j])
    && (forall k :: k in keys <==> k in params)
  }

  /** The bytes of an ASCII string. */
  function Ascii(s: string): (t: Text)
    requires forall c <- s :: c < 128 as char
    ensures |t| == |s|
  {
    seq(|s|, i requires 0 <= i < |s| => assert s[i] in s; AsciiByte(s[i]))
  }

  function AsciiByte(c: char): Byte
    requires c < 128 as char
  {
    c as int
  }

  const SIGNATURE_METHOD := Ascii("SignatureMethod")
  const HMAC_SHA256 := Ascii("HmacSHA256")
  const HMAC_SHA1 := Ascii("HmacSHA1")

  function Signed(params: map<Text, Text>, sha256: bool): map<Text, Text> {
    params[SIGNATURE_METHOD := if sha256 then HMAC_SHA256 else HMAC_SHA1]
  }

  /** The pairs written for some keys in order. */
  function Written(keys: seq<Text>, params: map<Text, Text>): (pairs: seq<Text>)
    requires forall k <- keys :: k in params
    ensures |pairs| == |keys|
  {
    seq(|keys|, i requires 0 <= i < |keys| => WritePair(keys[i], params[keys[i]]))
  }

  // ---- Quoting is undone -------------------------------------------------------------

  lemma HexBack(b: Byte, tilde: bool, rest: Text)
    requires !Safe(b, tilde)
    ensures Unquote(QuoteByte(b, tilde) + rest) == [b] + Unquote(rest)
  {
  }

  lemma {:induction false} UnquoteQuote(s: Text, tilde: bool)
    ensures Unquote(Quote(s, tilde)) == s
  {
    if s == [] {
    } else {
      UnquoteQuote(s[1..], tilde);
      var rest := Quote(s[1..], tilde);
      if Safe(s[0], tilde) {
        assert ([s[0]] + rest)[1..] == rest;
      } else {
        HexBack(s[0], tilde, rest);
      }
    }
  }

  lemma {:induction false} QuoteIsClean(s: Text, tilde: bool)
    ensures AMPERSAND !in Quote(s, tilde) && EQUALS !in Quote(s, tilde)
  {
    if s == [] {
    } else {
      QuoteIsClean(s[1..], tilde);
    }
  }

  lemma {:induction false} SplitAfter(a: Text, c: Byte, rest: Text)
    requires c !in a
    ensures Split(a, c) == [a]
    ensures Split(a + [c] + rest, c) == [a] + Split(rest, c)
  {
    if a == [] {
      assert a + [c] + rest == [c] + rest;
      assert ([c] + rest)[1..] == rest;
    } else {
      SplitAfter(a[1..], c, rest);
      assert (a + [c] + rest)[1..] == a[1..] + [c] + rest;
      assert [a[0]] + a[1..] == a;
    }
  }

  lemma {:induction false} SplitJoin(parts: seq<Text>)
    requires parts != [] && forall p <- parts :: AMPERSAND !in p
    ensures Split(Join(parts), AMPERSAND) == parts
  {
    assert parts[0] in parts;
    if |parts| == 1 {
      SplitAfter(parts[0], AMPERSAND, []);
    } else {
      SplitJoin(parts[1..]);
      SplitAfter(parts[0], AMPERSAND, Join(parts[1..]));
    }
  }

  lemma PairBack(key: Text, value: Text)
    ensures AMPERSAND !in WritePair(key, value)
    ensures ReadPair(WritePair(key, value)) == Parameter(key, value)
  {
    QuoteIsClean(key, false);
    QuoteIsClean(value, true);
    SplitAfter(Quote(key, false), EQUALS, Quote(value, true));
    SplitAfter(Quote(value, true), EQUALS, []);
    UnquoteQuote(key, false);
    UnquoteQuote(value, true);
  }

  /** Reading the joined pairs gives back every key with its value, in order. */
  lemma QueryBack(keys: seq<Text>, params: map<Text, Text>)
    requires keys != [] && forall k <- keys :: k in params
    ensures ReadQuery(Join(Written(keys, params)))
            == seq(|keys|, i requires 0 <= i < |keys| => Parameter(keys[i], params[keys[i]]))
  {
    var parts := Written(keys, params);
    forall i | 0 <= i < |keys|
      ensures AMPERSAND !in parts[i] && ReadPair(parts[i]) == Parameter(keys[i], params[keys[i]])
    {
      PairBack(keys[i], params[keys[i]]);
    }
    SplitJoin(parts);
  }

  // ---- What quoted text looks like -----------------------------------------------------

  /** A letter, a digit, or one of `-`, `.`, `_` and, in a value, `~`. */
  predicate PlainByte(b: Byte, tilde: bool) {
    48 <= b <= 57 || 65 <= b <= 90 || 97 <= b <= 122 || b in {45, 46, 95} || (tilde && b == 126)
  }

  predicate UpperHex(b: Byte) {
    48 <= b <= 57 || 65 <= b <= 70
  }

  /** Plain bytes, and percent signs each with two upper-case hexadecimal digits. */
  predicate WellQuoted(s: Text, tilde: bool)
    decreases |s|
  {
    || s == []
    || (PlainByte(s[0], tilde) && WellQuoted(s[1..], tilde))
    || (s[0] == 37 && |s| >= 3 && UpperHex(s[1]) && UpperHex(s[2]) && WellQuoted(s[3..], tilde))
  }

  lemma {:induction false} QuotedIsWellQuoted(s: Text, tilde: bool)
    ensures WellQuoted(Quote(s, tilde), tilde)
  {
    if s == [] {
    } else {
      var first, rest := QuoteByte(s[0], tilde), Quote(s[1..], tilde);
      QuotedIsWellQuoted(s[1..], tilde);
      assert (first + rest)[|first|..] == rest;
    }
  }

  lemma {:induction false} PlainIsUnchanged(s: Text, tilde: bool)
    ensures Quote(s, tilde) == s <==> forall b <- s :: PlainByte(b, tilde)
  {
    if s == [] {
    } else {
      PlainIsUnchanged(s[1..], tilde);
      var first, rest := QuoteByte(s[0], tilde), Quote(s[1..], tilde);
      assert s == [s[0]] + s[1..];
      if PlainByte(s[0], tilde) {
        assert first + rest == s <==> rest == s[1..];
      } else {
        QuoteIsLonger(s[1..], tilde);
      }
    }
  }

  lemma {:induction false} QuoteIsLonger(s: Text, tilde: bool)
    ensures |Quote(s, tilde)| >= |s|
  {
    if s == [] {
    } else {
      QuoteIsLonger(s[1..], tilde);
    }
  }

  lemma {:induction false} QuoteConcat(a: Text, b: Text, tilde: bool)
    ensures Quote(a + b, tilde) == Quote(a, tilde) + Quote(b, tilde)
  {
    if a == [] {
      assert a + b == b;
    } else {
      assert (a + b)[1..] == a[1..] + b;
      QuoteConcat(a[1..], b, tilde);
    }
  }

  /** What quoting a text yields: plain bytes and upper-case escapes that decode to the text, each plain byte of it
      as it is, and nothing else has these properties. */
  lemma QuoteIsOnlySuch(s: Text, q: Text, tilde: bool)
    ensures q == Quote(s, tilde)
            <==> WellQuoted(q, tilde) && NoPlainEscape(q, tilde) && Unquote(q) == s
  {
    QuotedIsWellQuoted(s, tilde);
    NothingPlainEscaped(s, tilde);
    UnquoteQuote(s, tilde);
    if WellQuoted(q, tilde) && NoPlainEscape(q, tilde) {
      QuoteUnquote(q, tilde);
    }
  }

  /** No escape stands for a plain byte. */
  predicate NoPlainEscape(q: Text, tilde: bool)
    decreases |q|
  {
    || q == []
    || (q[0] != 37 && NoPlainEscape(q[1..], tilde))
    || (q[0] == 37 && |q| >= 3 && !PlainEscape(q[1], q[2], tilde) && NoPlainEscape(q[3..], tilde))
  }

  predicate PlainEscape(c: Byte, d: Byte, tilde: bool) {
    exists b: Byte :: PlainByte(b, tilde) && c == Digit(b / 16) && d == Digit(b % 16)
  }

  /** The digits are those of `0` to `9` and `A` to `F`. */
  function Digit(d: int): int {
    if d < 10 then '0' as int + d else 'A' as int + (d - 10)
  }

  lemma EscapedByte(b: Byte, tilde: bool)
    requires !Safe(b, tilde)
    ensures QuoteByte(b, tilde) == [37, Digit(b / 16), Digit(b % 16)]
    ensures !PlainEscape(Digit(b / 16), Digit(b % 16), tilde)
  {
    forall c: Byte | Digit(c / 16) == Digit(b / 16) && Digit(c % 16) == Digit(b % 16)
      ensures c == b
    {
      assert c == 16 * (c / 16) + c % 16 && b == 16 * (b / 16) + b % 16;
    }
  }

  lemma {:induction false} NothingPlainEscaped(s: Text, tilde: bool)
    ensures NoPlainEscape(Quote(s, tilde), tilde)
  {
    if s == [] {
    } else {
      var first, rest := QuoteByte(s[0], tilde), Quote(s[1..], tilde);
      NothingPlainEscaped(s[1..], tilde);
      assert (first + rest)[|first|..] == rest;
      if !Safe(s[0], tilde) {
        EscapedByte(s[0], tilde);
      }
    }
  }

  lemma {:induction false} QuoteUnquote(q: Text, tilde: bool)
    requires WellQuoted(q, tilde) && NoPlainEscape(q, tilde)
    ensures Quote(Unquote(q), tilde) == q
    decreases |q|
  {
    if q == [] {
    } else if q[0] != 37 {
      QuoteUnquote(q[1..], tilde);
      assert q == [q[0]] + q[1..];
    } else {
      QuoteUnquote(q[3..], tilde);
      EscapeBack(q[1], q[2], tilde);
      assert q == [q[0], q[1], q[2]] + q[3..];
    }
  }

  lemma EscapeBack(c: Byte, d: Byte, tilde: bool)
    requires UpperHex(c) && UpperHex(d) && !PlainEscape(c, d, tilde)
    ensures HexValue(c).Some? && HexValue(d).Some?
    ensures QuoteByte(16 * HexValue(c).value + HexValue(d).value, tilde) == [PERCENT, c, d]
  {
    var b: Byte := 16 * HexValue(c).value + HexValue(d).value;
    assert b / 16 == HexValue(c).value && b % 16 == HexValue(d).value;
    assert c == Digit(b / 16) && d == Digit(b % 16);
  }

  /** A pair is the key, in which `~` is escaped, an equals sign, and the value, in which it is not. */
  lemma PairIsQuoted(key: Text, value: Text, q: Text, r: Text)
    ensures WellQuoted(q, false) && NoPlainEscape(q, false) && Unquote(q) == key
            && WellQuoted(r, true) && NoPlainEscape(r, true) && Unquote(r) == value
            ==> WritePair(key, value) == q + [61] + r
  {
    QuoteIsOnlySuch(key, q, false);
    QuoteIsOnlySuch(value, r, true);
  }

  // ---- The order is the set's own ----------------------------------------------------

  ghost predicate Sorted(ks: seq<Text>) {
    forall i, j :: 0 <= i < j < |ks| ==> Leq(ks[i], ks[j]) && ks[i] != ks[j]
  }

  /** The order is that of the bytes: a beginning comes first, and otherwise the first difference decides. */
  lemma {:induction false} LeqIff(a: Text, b: Text)
    ensures Leq(a, b) <==> a <= b || exists k :: 0 <= k < |a| && k < |b| && a[..k] == b[..k] && a[k] < b[k]
  {
    if a == [] || b == [] {
    } else if a[0] != b[0] {
      assert a[..0] == b[..0];
    } else {
      LeqIff(a[1..], b[1..]);
      assert a <= b <==> a[1..] <= b[1..];
      if k :| 0 <= k < |a| && k < |b| && a[..k] == b[..k] && a[k] < b[k] {
        assert a[1..][..k - 1] == a[..k][1..] == b[..k][1..] == b[1..][..k - 1];
      }
      if k :| 0 <= k < |a| - 1 && k < |b| - 1 && a[1..][..k] == b[1..][..k] && a[1..][k] < b[1..][k] {
        assert a[..k + 1] == [a[0]] + a[1..][..k] == b[..k + 1];
      }
    }
  }

  lemma {:induction false} LeqTotal(a: Text, b: Text)
    ensures Leq(a, b) || Leq(b, a)
    ensures Leq(a, b) && Leq(b, a) ==> a == b
  {
    if a == [] || b == [] {
    } else {
      LeqTotal(a[1..], b[1..]);
      assert a == [a[0]] + a[1..] && b == [b[0]] + b[1..];
    }
  }

  lemma {:induction false} LeqTrans(a: Text, b: Text, c: Text)
    requires Leq(a, b) && Leq(b, c)
    ensures Leq(a, c)
  {
    if a == [] || a[0] != b[0] || b[0] != c[0] {
    } else {
      LeqTrans(a[1..], b[1..], c[1..]);
    }
  }

  lemma PrependSorted(k: Text, ks: seq<Text>)
    requires Sorted(ks) && forall x <- ks :: Leq(k, x) && k != x
    ensures Sorted([k] + ks)
  {
  }

  lemma {:induction false} InsertSorted(k: Text, ks: seq<Text>)
    requires Sorted(ks) && k !in ks
    ensures Sorted(Insert(k, ks)) && forall x :: x in Insert(k, ks) <==> x == k || x in ks
  {
    if ks == [] {
    } else {
      LeqTotal(k, ks[0]);
      if Leq(k, ks[0]) {
        forall x | x in ks
          ensures Leq(k, x) && k != x
        {
          if x != ks[0] {
            LeqTrans(k, ks[0], x);
          }
        }
        PrependSorted(k, ks);
      } else {
        InsertSorted(k, ks[1..]);
        var rest := Insert(k, ks[1..]);
        assert ks == [ks[0]] + ks[1..];
        forall x | x in rest
          ensures Leq(ks[0], x) && ks[0] != x
        {
          assert x == k || x in ks[1..];
        }
        PrependSorted(ks[0], rest);
      }
    }
  }

  lemma {:induction false} SortSorts(ks: seq<Text>)
    requires forall i, j :: 0 <= i < j < |ks| ==> ks[i] != ks[j]
    ensures Sorted(Sort(ks)) && forall x :: x in Sort(ks) <==> x in ks
  {
    if ks == [] {
    } else {
      SortSorts(ks[1..]);
      assert ks == [ks[0]] + ks[1..];
      assert ks[0] !in ks[1..];
      InsertSorted(ks[0], Sort(ks[1..]));
    }
  }

  lemma {:induction false} SortedIsUnique(a: seq<Text>, b: seq<Text>)
    requires Sorted(a) && Sorted(b) && forall x :: x in a <==> x in b
    ensures a == b
    decreases |a|
  {
    assert (a != [] ==> a[0] in a) && (b != [] ==> b[0] in b);
    if a == [] {
    } else {
      assert a[0] in b && b[0] in a;
      LeqTotal(a[0], b[0]);
      assert a[0] == b[0];
      assert a == [a[0]] + a[1..] && b == [b[0]] + b[1..];
      forall x
        ensures x in a[1..] <==> x in b[1..]
      {
        assert x in a <==> x == a[0] || x in a[1..];
        assert x in b <==> x == b[0] || x in b[1..];
        assert a[0] !in a[1..] && b[0] !in b[1..];
      }
      SortedIsUnique(a[1..], b[1..]);
    }
  }

  // ---- The whole query string --------------------------------------------------------

  /** The query string made from the parameters listed in `order`. */
  ghost function QueryString(order: seq<Text>, params: map<Text, Text>): Text
    requires Enumerates(order, params)
  {
    SortSorts(order);
    Join(Written(Sort(order), params))
  }

  function ToMap(ps: seq<Parameter>): map<Text, Text> {
    if ps == [] then map[]
    else
      var n := |ps| - 1;
      ToMap(ps[..n])[ps[n].key := ps[n].value]
  }

  lemma {:induction false} ToMapOf(keys: seq<Text>, params: map<Text, Text>, ps: seq<Parameter>)
    requires forall k <- keys :: k in params
    requires |ps| == |keys| && forall i :: 0 <= i < |ps| ==> ps[i] == Parameter(keys[i], params[keys[i]])
    ensures ToMap(ps).Keys == set k | k in keys
    ensures forall k <- keys :: ToMap(ps)[k] == params[k]
    decreases |ps|
  {
    if ps == [] {
    } else {
      var n := |ps| - 1;
      assert keys == keys[..n] + [keys[n]];
      ToMapOf(keys[..n], params, ps[..n]);
    }
  }

  function Keys(ps: seq<Parameter>): (keys: seq<Text>)
    ensures |keys| == |ps|
  {
    seq(|ps|, i requires 0 <= i < |ps| => ps[i].key)
  }

  /** Splitting on `&` and `=` and percent-decoding recovers the parameter map, its keys in order. */
  lemma QueryStringIsFaithful(order: seq<Text>, params: map<Text, Text>)
    requires Enumerates(order, params) && order != []
    ensures ToMap(ReadQuery(QueryString(order, params))) == params
    ensures Sorted(Keys(ReadQuery(QueryString(order, params))))
  {
    SortSorts(order);
    var keys := Sort(order);
    assert order[0] in order && order[0] in keys;
    QueryBack(keys, params);
    assert Keys(ReadQuery(QueryString(order, params))) == keys;
    ToMapOf(keys, params, ReadQuery(QueryString(order, params)));
  }

  /** The order in which the dictionary lists its keys does not matter. */
  lemma OrderDoesNotMatter(order: seq<Text>, order': seq<Text>, params: map<Text, Text>)
    requires Enumerates(order, params) && Enumerates(order', params)
    ensures QueryString(order, params) == QueryString(order', params)
  {
    SortSorts(order);
    SortSorts(order');
    SortedIsUnique(Sort(order), Sort(order'));
  }

  /** Two parameter maps have the same query string only when they are the same map. */
  lemma SameQueryIff(order: seq<Text>, params: map<Text, Text>, order': seq<Text>, params': map<Text, Text>)
    requires Enumerates(order, params) && order != []
    requires Enumerates(order', params') && order' != []
    ensures QueryString(order, params) == QueryString(order', params') <==> params == params'
  {
    QueryStringIsFaithful(order, params);
    QueryStringIsFaithful(order', params');
    if params == params' {
      OrderDoesNotMatter(order, order', params);
    }
  }

  /** The method is named and everything else is left as the caller gave it. */
  lemma SignedNamesMethod(params: map<Text, Text>, key: Text)
    ensures Signed(params, true)[Ascii("SignatureMethod")] == Ascii("HmacSHA256")
    ensures Signed(params, false)[Ascii("SignatureMethod")] == Ascii("HmacSHA1")
    ensures forall sha256 :: key != Ascii("SignatureMethod") ==>
              (key in Signed(params, sha256) <==> key in params)
              && (key in params ==> Signed(params, sha256)[key] == params[key])
  {
  }

  /** The loop of `_calc_signature`: one `key=value` pair for each key, both parts quoted. */
  method WritePairs(keys: seq<Text>, params: map<Text, Text>) returns (pairs: seq<Text>)
    requires forall k <- keys :: k in params
    ensures pairs == Written(keys, params)
  {
    pairs := [];
    for i := 0 to |keys|
      invariant |pairs| == i && forall j :: 0 <= j < i ==> pairs[j] == WritePair(keys[j], params[keys[j]])
    {
      pairs := pairs + [Quote(keys[i], false) + [EQUALS] + Quote(params[keys[i]], true)];
    }
  }

  /** `_calc_signature` up to the query string: adds the signature method to the caller's parameters,
      sorts the keys and writes the pairs. `order` is the order of `params.keys()`. */
  method CalcQueryString(params: map<Text, Text>, sha256: bool, order: seq<Text>)
    returns (signed: map<Text, Text>, qs: Text)
    requires Enumerates(order, Signed(params, sha256))
    ensures signed == Signed(params, sha256)
    ensures qs == QueryString(order, signed)
    ensures ToMap(ReadQuery(qs)) == signed && Sorted(Keys(ReadQuery(qs)))
  {
    signed := Signed(params, sha256);
    assert SIGNATURE_METHOD in signed;
    assert order != [];
    SortSorts(order);
    var pairs := WritePairs(Sort(order), signed);
    qs := Join(pairs);
    QueryStringIsFaithful(order, signed);
  }
}
