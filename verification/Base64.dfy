// The base64 decoder (base64.c) against sections 3.5 and 4 of RFC 4648.

module Base64 {
  import opened Wrappers

  const PAD: bv8 := 61                // '='
  const INVALID: bv32 := 0xffff_ffff  // -1 of a signed char, converted to unsigned int

  // ---------- the encoding ----------

  // Table 1 of RFC 4648: A-Z, a-z, 0-9, +, /
  function Letter(value: bv32): bv8
    requires value < 64
  {
    if value < 26 then (65 + value) as bv8
    else if value < 52 then (71 + value) as bv8
    else if value < 62 then (value - 4) as bv8
    else if value == 62 then 43
    else 47
  }

  predicate InAlphabet(c: bv8) {
    65 <= c <= 90 || 97 <= c <= 122 || 48 <= c <= 57 || c == 43 || c == 47
  }

  function Group(x: bv8, y: bv8, z: bv8): bv32 {
    ((x as bv32) << 16) | ((y as bv32) << 8) | (z as bv32)
  }

  function Sextet0(group: bv32): (v: bv32)
    ensures v < 64
  {
    (group >> 18) & 63
  }

  function Sextet1(group: bv32): (v: bv32)
    ensures v < 64
  {
    (group >> 12) & 63
  }

  function Sextet2(group: bv32): (v: bv32)
    ensures v < 64
  {
    (group >> 6) & 63
  }

  function Sextet3(group: bv32): (v: bv32)
    ensures v < 64
  {
    group & 63
  }

  // The four letters of 24 bits
  function Letters(group: bv32): (s: seq<bv8>)
    ensures |s| == 4
  {
    [Letter(Sextet0(group)), Letter(Sextet1(group)), Letter(Sextet2(group)), Letter(Sextet3(group))]
  }

  function Encode(data: seq<bv8>): seq<bv8> {
    if data == [] then []
    else if |data| == 1 then Letters(Group(data[0], 0, 0))[..2] + [PAD, PAD]
    else if |data| == 2 then Letters(Group(data[0], data[1], 0))[..3] + [PAD]
    else Letters(Group(data[0], data[1], data[2])) + Encode(data[3..])
  }

  // ---------- the encoding, independently ----------

  // The letters stand for the digits of the group in base 64.
  lemma LettersAreDigits(x: bv8, y: bv8, z: bv8)
    ensures var g := Group(x, y, z);
      && (g == (x as bv32) * 0x1_0000 + (y as bv32) * 0x100 + (z as bv32))
      && (g == Sextet0(g) * 0x4_0000 + Sextet1(g) * 0x1000 + Sextet2(g) * 0x40 + Sextet3(g))
  {
  }

  // The alphabet runs through the ASCII codes of A to Z, a to z and 0 to 9, and ends with + and /.
  lemma AlphabetInOrder(value: bv32)
    requires value < 63
    ensures Letter(0) == 'A' as bv8 && Letter(26) == 'a' as bv8 && Letter(52) == '0' as bv8
    ensures Letter(62) == '+' as bv8 && Letter(63) == '/' as bv8
    ensures value !in {25, 51, 61, 62} ==> Letter(value + 1) == Letter(value) + 1
  {
  }

  // "f", "fo", "foo" and "foobar" of section 10 of RFC 4648
  lemma TestVectors()
    ensures Encode([102]) == [90, 103, 61, 61]
    ensures Encode([102, 111]) == [90, 109, 56, 61]
    ensures Encode([102, 111, 111]) == [90, 109, 57, 118]
    ensures Encode([102, 111, 111, 98, 97, 114]) == [90, 109, 57, 118, 89, 109, 70, 121]
  {
    var six: seq<bv8> := [102, 111, 111, 98, 97, 114];
    assert six[3..] == [98, 97, 114];
    assert Encode(six) == Letters(Group(102, 111, 111)) + Encode([98, 97, 114]);
    assert Encode([98, 97, 114]) == Letters(Group(98, 97, 114)) + Encode([]);
  }

  // ---------- the decoder on values ----------

  // The lookup table
  function Lookup(c: bv8): bv32 {
    if 65 <= c <= 90 then (c as bv32) - 65
    else if 97 <= c <= 122 then (c as bv32) - 71
    else if 48 <= c <= 57 then (c as bv32) + 4
    else if c == 43 then 62
    else if c == 47 then 63
    else INVALID
  }

  predicate Clean(quad: bv32) {
    quad & 0xff00_0000 == 0
  }

  function First(quad: bv32): bv8 { ((quad >> 16) & 0xff) as bv8 }

  function Second(quad: bv32): bv8 { ((quad >> 8) & 0xff) as bv8 }

  function Third(quad: bv32): bv8 { (quad & 0xff) as bv8 }

  function Join2(a: bv32, b: bv32): bv32 {
    (a << 18) | (b << 12)
  }

  function Join3(quad: bv32, c: bv32): bv32 {
    quad | (c << 6)
  }

  function Join4(quad: bv32, d: bv32): bv32 {
    quad | d
  }

  function Two(s: seq<bv8>): bv32
    requires |s| >= 4
  {
    Join2(Lookup(s[0]), Lookup(s[1]))
  }

  function Three(s: seq<bv8>): bv32
    requires |s| >= 4
  {
    Join3(Two(s), Lookup(s[2]))
  }

  function Four(s: seq<bv8>): bv32
    requires |s| >= 4
  {
    Join4(Three(s), Lookup(s[3]))
  }

  function DecodeLast(s: seq<bv8>): Option<seq<bv8>>
    requires |s| == 4
  {
    if s[2] != PAD && s[3] != PAD then
      if Clean(Four(s)) then Some([First(Four(s)), Second(Four(s)), Third(Four(s))]) else None
    else if s[2] != PAD then
      if Clean(Three(s)) then Some([First(Three(s)), Second(Three(s))]) else None
    else if s[3] != PAD then None
    else if Clean(Two(s)) then Some([First(Two(s))]) else None
  }

  function Decode(s: seq<bv8>): Option<seq<bv8>> {
    if |s| % 4 != 0 then None
    else if s == [] then Some([])
    else if |s| == 4 then DecodeLast(s)
    else if !Clean(Four(s)) then None
    else
      match Decode(s[4..])
      case None => None
      case Some(rest) => Some([First(Four(s)), Second(Four(s)), Third(Four(s))] + rest)
  }

  // ---------- bits ----------

  lemma LookupKnowsTheAlphabet(c: bv8)
    ensures InAlphabet(c) <==> Lookup(c) < 64
    ensures !InAlphabet(c) <==> Lookup(c) == INVALID
    ensures InAlphabet(c) ==> Letter(Lookup(c)) == c
    ensures !InAlphabet(PAD)
  {
  }

  lemma LookupOfLetter(value: bv32)
    requires value < 64
    ensures InAlphabet(Letter(value)) && Lookup(Letter(value)) == value
  {
  }

  predicate Sextet(v: bv32) {
    v < 64 || v == INVALID
  }

  lemma CleanOfOr(x: bv32, y: bv32)
    ensures Clean(x | y) <==> Clean(x) && Clean(y)
  {
  }

  lemma CleanOfShift(v: bv32)
    requires Sextet(v)
    ensures Clean(v << 18) <==> v < 64
    ensures Clean(v << 12) <==> v < 64
    ensures Clean(v << 6) <==> v < 64
    ensures Clean(v) <==> v < 64
  {
  }

  // One test per quad finds any invalid letter: -1 sets the top bits wherever it is shifted.
  lemma OneMaskTest(s: seq<bv8>)
    requires |s| >= 4
    ensures Clean(Two(s)) <==> InAlphabet(s[0]) && InAlphabet(s[1])
    ensures Clean(Three(s)) <==> InAlphabet(s[0]) && InAlphabet(s[1]) && InAlphabet(s[2])
    ensures Clean(Four(s)) <==> InAlphabet(s[0]) && InAlphabet(s[1]) && InAlphabet(s[2]) && InAlphabet(s[3])
  {
    forall k | 0 <= k < 4
      ensures Sextet(Lookup(s[k])) && (Lookup(s[k]) < 64 <==> InAlphabet(s[k]))
    {
      LookupKnowsTheAlphabet(s[k]);
    }
    var a, b, c, d := Lookup(s[0]), Lookup(s[1]), Lookup(s[2]), Lookup(s[3]);
    CleanOfShift(a);
    CleanOfShift(b);
    CleanOfShift(c);
    CleanOfShift(d);
    CleanOfOr(a << 18, b << 12);
    CleanOfOr(Two(s), c << 6);
    CleanOfOr(Three(s), d);
  }

  // Group and letters are inverse, and so are the three bytes and their group.
  lemma PartsOfGroup(g: bv32)
    requires Clean(g)
    ensures Join4(Join3(Join2(Sextet0(g), Sextet1(g)), Sextet2(g)), Sextet3(g)) == g
  {
  }

  lemma PartsOfSextets(a: bv32, b: bv32, c: bv32, d: bv32)
    requires a < 64 && b < 64 && c < 64 && d < 64
    ensures var g := Join4(Join3(Join2(a, b), c), d);
      Sextet0(g) == a && Sextet1(g) == b && Sextet2(g) == c && Sextet3(g) == d
  {
  }

  lemma BytesOfGroup(x: bv8, y: bv8, z: bv8)
    ensures Clean(Group(x, y, z))
    ensures First(Group(x, y, z)) == x && Second(Group(x, y, z)) == y && Third(Group(x, y, z)) == z
  {
  }

  lemma GroupOfBytes(g: bv32)
    requires Clean(g)
    ensures Group(First(g), Second(g), Third(g)) == g
  {
  }

  lemma LookupOfLetters(a: bv32, b: bv32, c: bv32, d: bv32, s: seq<bv8>)
    requires a < 64 && b < 64 && c < 64 && d < 64 && s == [Letter(a), Letter(b), Letter(c), Letter(d)]
    ensures InAlphabet(s[0]) && InAlphabet(s[1]) && InAlphabet(s[2]) && InAlphabet(s[3])
    ensures Two(s) == Join2(a, b) && Three(s) == Join3(Two(s), c) && Four(s) == Join4(Three(s), d)
  {
    hide Letter, Lookup, Join2, Join3, Join4, InAlphabet;
    LookupOfLetter(a);
    LookupOfLetter(b);
    LookupOfLetter(c);
    LookupOfLetter(d);
  }

  lemma LettersDecode(g: bv32)
    requires Clean(g)
    ensures forall k :: 0 <= k < 4 ==> InAlphabet(Letters(g)[k])
    ensures Two(Letters(g)) == Join2(Sextet0(g), Sextet1(g))
    ensures Three(Letters(g)) == Join3(Two(Letters(g)), Sextet2(g))
    ensures Four(Letters(g)) == Join4(Three(Letters(g)), Sextet3(g)) == g
  {
    hide Letter, Lookup, Join2, Join3, Join4, InAlphabet, Sextet0, Sextet1, Sextet2, Sextet3, Two, Three, Four, Clean;
    LookupOfLetters(Sextet0(g), Sextet1(g), Sextet2(g), Sextet3(g), Letters(g));
    PartsOfGroup(g);
  }

  lemma LettersOfFour(s: seq<bv8>)
    requires |s| >= 4 && Clean(Four(s))
    ensures Letters(Four(s)) == s[..4]
  {
    OneMaskTest(s);
    forall k | 0 <= k < 4
      ensures Lookup(s[k]) < 64 && Letter(Lookup(s[k])) == s[k]
    {
      LookupKnowsTheAlphabet(s[k]);
    }
    PartsOfSextets(Lookup(s[0]), Lookup(s[1]), Lookup(s[2]), Lookup(s[3]));
  }

  // ---------- the decoder inverts the encoding ----------

  lemma {:induction false} EncodedLength(data: seq<bv8>)
    ensures |Encode(data)| == (|data| + 2) / 3 * 4
  {
    if |data| >= 3 {
      EncodedLength(data[3..]);
    }
  }

  lemma DecodeWhole(x: bv8, y: bv8, z: bv8)
    ensures DecodeLast(Letters(Group(x, y, z))) == Some([x, y, z])
    ensures Clean(Four(Letters(Group(x, y, z))))
    ensures First(Four(Letters(Group(x, y, z)))) == x
    ensures Second(Four(Letters(Group(x, y, z)))) == y
    ensures Third(Four(Letters(Group(x, y, z)))) == z
  {
    BytesOfGroup(x, y, z);
    LettersDecode(Group(x, y, z));
    LookupKnowsTheAlphabet(PAD);
  }

  lemma EmptyParts(x: bv8, y: bv8)
    ensures Sextet3(Group(x, y, 0)) == 0
    ensures Sextet2(Group(x, 0, 0)) == 0
  {
  }

  lemma JoinNothing(quad: bv32)
    ensures Join3(quad, 0) == quad && Join4(quad, 0) == quad
  {
  }

  lemma DecodeOne(x: bv8)
    ensures DecodeLast(Encode([x])) == Some([x])
  {
    hide Letter, Lookup, Join2, Join3, Join4, Sextet0, Sextet1, Sextet2, Sextet3, Group, First, Second, Third, Clean;
    var quad := Letters(Group(x, 0, 0));
    BytesOfGroup(x, 0, 0);
    LettersDecode(Group(x, 0, 0));
    EmptyParts(x, 0);
    JoinNothing(Two(quad));
    assert Encode([x]) == [quad[0], quad[1], PAD, PAD];
    assert Two(Encode([x])) == Two(quad);
  }

  lemma DecodeTwo(x: bv8, y: bv8)
    ensures DecodeLast(Encode([x, y])) == Some([x, y])
  {
    hide Letter, Lookup, Join2, Join3, Join4, Sextet0, Sextet1, Sextet2, Sextet3, Group, First, Second, Third, Clean;
    var quad := Letters(Group(x, y, 0));
    BytesOfGroup(x, y, 0);
    LettersDecode(Group(x, y, 0));
    EmptyParts(x, y);
    JoinNothing(Three(quad));
    LookupKnowsTheAlphabet(PAD);
    assert Encode([x, y]) == [quad[0], quad[1], quad[2], PAD];
    assert Three(Encode([x, y])) == Three(quad);
  }

  lemma {:induction false} RoundTrip(data: seq<bv8>)
    ensures Decode(Encode(data)) == Some(data)
  {
    hide Letters, Letter, Lookup, Join2, Join3, Join4, Group, First, Second, Third, Clean, DecodeLast;
    EncodedLength(data);
    if |data| == 1 {
      DecodeOne(data[0]);
      assert data == [data[0]];
    } else if |data| == 2 {
      DecodeTwo(data[0], data[1]);
      assert data == [data[0], data[1]];
    } else if |data| >= 3 {
      DecodeWhole(data[0], data[1], data[2]);
      EncodedLength(data[3..]);
      RoundTrip(data[3..]);
      var quad := Letters(Group(data[0], data[1], data[2]));
      assert Encode(data)[..4] == quad && Encode(data)[4..] == Encode(data[3..]);
      assert data == [data[0], data[1], data[2]] + data[3..];
      if |data| == 3 {
        assert Encode(data) == quad;
        assert data == [data[0], data[1], data[2]];
      } else {
        assert Four(Encode(data)) == Four(quad);
      }
    }
  }

  // ---------- what is accepted ----------

  function Padding(s: seq<bv8>): nat {
    if |s| < 4 || s[|s| - 1] != PAD then 0
    else if s[|s| - 2] != PAD then 1
    else 2
  }

  // Whole quads of letters, of which the last may end in one or two pad characters
  predicate Legal(s: seq<bv8>) {
    |s| % 4 == 0 && forall k :: 0 <= k < |s| - Padding(s) ==> InAlphabet(s[k])
  }

  lemma LegalTail(s: seq<bv8>)
    requires |s| > 4 && |s| % 4 == 0
    ensures Padding(s[4..]) == Padding(s)
    ensures Legal(s) <==> Legal(s[4..]) && forall k :: 0 <= k < 4 ==> InAlphabet(s[k])
  {
    var rest := s[4..];
    if Legal(s) {
      forall k | 0 <= k < |rest| - Padding(rest) ensures InAlphabet(rest[k]) {
        assert rest[k] == s[k + 4];
      }
    }
    if Legal(rest) {
      forall k | 4 <= k < |s| - Padding(s) ensures InAlphabet(s[k]) {
        assert s[k] == rest[k - 4];
      }
    }
  }

  lemma LastQuad(s: seq<bv8>)
    requires |s| == 4
    ensures DecodeLast(s).Some? <==> Legal(s)
    ensures DecodeLast(s).Some? ==> |DecodeLast(s).value| == 3 - Padding(s)
  {
    OneMaskTest(s);
    LookupKnowsTheAlphabet(PAD);
  }

  // The decoder accepts exactly the legal inputs, and each gives three bytes a quad but for the
  // padding.
  lemma {:induction false} AcceptsExactlyTheLegal(s: seq<bv8>)
    ensures Decode(s).Some? <==> Legal(s)
    ensures Decode(s).Some? ==> |Decode(s).value| == |s| / 4 * 3 - Padding(s)
  {
    if |s| == 4 {
      LastQuad(s);
    } else if |s| > 4 && |s| % 4 == 0 {
      OneMaskTest(s);
      LegalTail(s);
      AcceptsExactlyTheLegal(s[4..]);
    }
  }

  // ---------- which accepted inputs are the encoding of what they decode to ----------

  predicate UnusedBitsAreZero(s: seq<bv8>)
    requires |s| % 4 == 0
  {
    && (Padding(s) == 1 ==> Lookup(s[|s| - 2]) & 3 == 0)
    && (Padding(s) == 2 ==> Lookup(s[|s| - 3]) & 15 == 0)
  }

  lemma TwoSextets(a: bv32, b: bv32)
    requires a < 64 && b < 64
    ensures var g := Group(First(Join2(a, b)), 0, 0);
      Clean(g) && Sextet0(g) == a && (Sextet1(g) == b <==> b & 15 == 0)
  {
  }

  lemma ThreeSextets(a: bv32, b: bv32, c: bv32)
    requires a < 64 && b < 64 && c < 64
    ensures var t := Join3(Join2(a, b), c);
      var g := Group(First(t), Second(t), 0);
      Clean(g) && Sextet0(g) == a && Sextet1(g) == b && (Sextet2(g) == c <==> c & 3 == 0)
  {
  }

  lemma SameLetter(value: bv32, c: bv8)
    requires value < 64 && InAlphabet(c)
    ensures Letter(value) == c <==> value == Lookup(c)
  {
    LookupOfLetter(value);
    LookupKnowsTheAlphabet(c);
  }

  lemma SameLetters(p: bv32, q: bv32, r: bv32, s: seq<bv8>)
    requires p < 64 && q < 64 && r < 64 && |s| == 4
    requires InAlphabet(s[0]) && InAlphabet(s[1])
    ensures s[2] == PAD && s[3] == PAD ==>
      ([Letter(p), Letter(q), PAD, PAD] == s <==> p == Lookup(s[0]) && q == Lookup(s[1]))
    ensures InAlphabet(s[2]) && s[3] == PAD ==>
      ([Letter(p), Letter(q), Letter(r), PAD] == s <==> p == Lookup(s[0]) && q == Lookup(s[1]) && r == Lookup(s[2]))
  {
    SameLetter(p, s[0]);
    SameLetter(q, s[1]);
    if InAlphabet(s[2]) {
      SameLetter(r, s[2]);
    }
  }

  lemma LastTwoLetters(s: seq<bv8>)
    requires |s| == 4 && Legal(s) && Padding(s) == 2
    ensures DecodeLast(s) == Some([First(Two(s))])
    ensures Encode([First(Two(s))]) == s <==> Lookup(s[1]) & 15 == 0
  {
    hide Letter, Lookup, Join2, Join3, Join4, InAlphabet, Sextet0, Sextet1, Sextet2, Sextet3, Group, First, Second, Third, Clean;
    LastQuad(s);
    LookupKnowsTheAlphabet(s[0]);
    LookupKnowsTheAlphabet(s[1]);
    TwoSextets(Lookup(s[0]), Lookup(s[1]));
    var g := Group(First(Two(s)), 0, 0);
    assert Encode([First(Two(s))]) == [Letters(g)[0], Letters(g)[1], PAD, PAD];
    SameLetters(Sextet0(g), Sextet1(g), 0, s);
  }

  lemma LastThreeLetters(s: seq<bv8>)
    requires |s| == 4 && Legal(s) && Padding(s) == 1
    ensures DecodeLast(s) == Some([First(Three(s)), Second(Three(s))])
    ensures Encode([First(Three(s)), Second(Three(s))]) == s <==> Lookup(s[2]) & 3 == 0
  {
    hide Letter, Lookup, Join2, Join3, Join4, InAlphabet, Sextet0, Sextet1, Sextet2, Sextet3, Group, First, Second, Third, Clean;
    LastQuad(s);
    LookupKnowsTheAlphabet(s[0]);
    LookupKnowsTheAlphabet(s[1]);
    LookupKnowsTheAlphabet(s[2]);
    ThreeSextets(Lookup(s[0]), Lookup(s[1]), Lookup(s[2]));
    var g := Group(First(Three(s)), Second(Three(s)), 0);
    assert Encode([First(Three(s)), Second(Three(s))]) == [Letters(g)[0], Letters(g)[1], Letters(g)[2], PAD];
    SameLetters(Sextet0(g), Sextet1(g), Sextet2(g), s);
  }

  lemma {:induction false} ReencodingIsExact(s: seq<bv8>)
    requires Legal(s)
    ensures Decode(s).Some?
    ensures Encode(Decode(s).value) == s <==> UnusedBitsAreZero(s)
  {
    AcceptsExactlyTheLegal(s);
    if |s| == 4 && Padding(s) == 2 {
      LastTwoLetters(s);
    } else if |s| == 4 && Padding(s) == 1 {
      LastThreeLetters(s);
    } else if |s| >= 4 {
      OneMaskTest(s);
      ReencodeFirstQuad(s);
      if |s| > 4 {
        LegalTail(s);
        ReencodingIsExact(s[4..]);
      }
    }
  }

  // An input is the encoding of some data if and only if it is legal and has no unused bit set.
  lemma EncodingsExactly(s: seq<bv8>)
    ensures (exists data :: Encode(data) == s) <==> Legal(s) && UnusedBitsAreZero(s)
  {
    if data :| Encode(data) == s {
      RoundTrip(data);
      AcceptsExactlyTheLegal(s);
    }
    if Legal(s) {
      ReencodingIsExact(s);
    }
  }

  lemma ReencodeFirstQuad(s: seq<bv8>)
    requires Legal(s) && |s| >= 4 && (|s| == 4 ==> Padding(s) == 0)
    ensures Clean(Four(s)) && Decode(s).Some? && |Decode(s).value| >= 3
    ensures Encode(Decode(s).value) == s[..4] + Encode(Decode(s).value[3..])
    ensures |s| > 4 ==> Decode(s[4..]) == Some(Decode(s).value[3..])
    ensures |s| == 4 ==> |Decode(s).value| == 3
  {
    AcceptsExactlyTheLegal(s);
    OneMaskTest(s);
    GroupOfBytes(Four(s));
    LettersOfFour(s);
    LookupKnowsTheAlphabet(PAD);
  }

  // ---------- the decoder ----------

  function Prepend(prefix: seq<bv8>, tail: Option<seq<bv8>>): Option<seq<bv8>> {
    if tail.Some? then Some(prefix + tail.value) else None
  }

  lemma NothingPrepended(tail: Option<seq<bv8>>)
    ensures Prepend([], tail) == tail
  {
    if tail.Some? {
      assert [] + tail.value == tail.value;
    }
  }

  lemma PrependStep(prefix: seq<bv8>, s: seq<bv8>)
    requires |s| > 4 && |s| % 4 == 0 && Clean(Four(s))
    ensures Prepend(prefix, Decode(s)) == Prepend(prefix + [First(Four(s)), Second(Four(s)), Third(Four(s))], Decode(s[4..]))
  {
    if Decode(s[4..]).Some? {
      var three, rest := [First(Four(s)), Second(Four(s)), Third(Four(s))], Decode(s[4..]).value;
      assert prefix + (three + rest) == prefix + three + rest;
    }
  }

  lemma DecodeEdges(s: seq<bv8>)
    ensures |s| % 4 != 0 ==> Decode(s) == None
    ensures |s| == 0 ==> Decode(s) == Some([])
    ensures |s| == 4 ==> Decode(s) == DecodeLast(s)
    ensures |s| > 4 && !Clean(Four(s)) ==> Decode(s) == None
  {
  }

  // The first two letters of a quad, and all four
  method ReadTwo(encoded: array<bv8>, i: nat) returns (quad: bv32)
    requires i + 4 <= encoded.Length
    ensures quad == Two(encoded[i..])
  {
    quad := Lookup(encoded[i]) << 18;
    quad := quad | (Lookup(encoded[i + 1]) << 12);
  }

  method ReadFour(encoded: array<bv8>, i: nat) returns (quad: bv32)
    requires i + 4 <= encoded.Length
    ensures quad == Four(encoded[i..])
  {
    quad := ReadTwo(encoded, i);
    quad := quad | (Lookup(encoded[i + 2]) << 6);
    quad := quad | Lookup(encoded[i + 3]);
  }

  // base64_decode: -1 for an invalid input. Nothing is read past the input or written past
  // three bytes for each quad.
  method Base64Decode(encoded: array<bv8>, decoded: array<bv8>) returns (size: int)
    requires encoded != decoded && decoded.Length >= encoded.Length / 4 * 3
    modifies decoded
    ensures size == match Decode(encoded[..]) { case None => -1 case Some(data) => |data| }
    ensures size >= 0 ==> size <= decoded.Length && Decode(encoded[..]) == Some(decoded[..size])
    ensures forall k :: encoded.Length / 4 * 3 <= k < decoded.Length ==> decoded[k] == old(decoded[k])
  {
    hide Decode, Lookup, Join2, Join3, Join4, First, Second, Third, Clean, Two, Three, Four, DecodeLast;
    DecodeEdges(encoded[..]);
    if encoded.Length % 4 != 0 {
      return -1;
    }
    if encoded.Length == 0 {
      assert decoded[..0] == [];
      return 0;
    }
    ghost var s := encoded[..];
    var i, o := 0, 0;
    assert s[0..] == s && decoded[..0] == [];
    NothingPrepended(Decode(s));
    while i < encoded.Length - 4
      invariant i % 4 == 0 && 0 <= i <= encoded.Length - 4 && o == i / 4 * 3
      invariant encoded[..] == s
      invariant Decode(s) == Prepend(decoded[..o], Decode(s[i..]))
      invariant forall k :: encoded.Length / 4 * 3 <= k < decoded.Length ==> decoded[k] == old(decoded[k])
    {
      var quad := ReadFour(encoded, i);
      assert s[i..] == encoded[i..];
      DecodeEdges(s[i..]);
      if !Clean(quad) {
        return -1;
      }
      ghost var done := decoded[..o];
      PrependStep(done, s[i..]);
      assert s[i..][4..] == s[i + 4..];
      decoded[o], decoded[o + 1], decoded[o + 2] := First(quad), Second(quad), Third(quad);
      assert decoded[..o + 3] == done + [First(quad), Second(quad), Third(quad)];
      i, o := i + 4, o + 3;
    }
    ghost var done := decoded[..o];
    assert s[i..] == encoded[i..];
    DecodeEdges(s[i..]);
    size := DecodeEnd(encoded, decoded, i, o);
    assert size >= 0 ==> decoded[..size] == done + decoded[o..size];
  }

  method DecodeEnd(encoded: array<bv8>, decoded: array<bv8>, i: nat, o: nat) returns (size: int)
    requires encoded != decoded && i + 4 == encoded.Length && o + 3 <= decoded.Length
    modifies decoded
    ensures size >= 0 <==> DecodeLast(encoded[i..]).Some?
    ensures size >= 0 ==> o <= size <= o + 3 && decoded[o..size] == DecodeLast(encoded[i..]).value
    ensures size >= -1
    ensures forall k :: 0 <= k < o || o + 3 <= k < decoded.Length ==> decoded[k] == old(decoded[k])
  {
    hide Lookup, Join2, Join3, Join4, First, Second, Third, Clean;
    ghost var s := encoded[i..];
    var at, end := i, o;
    var quad := ReadTwo(encoded, at);
    at := at + 2;
    decoded[end] := First(quad);
    end := end + 1;
    FirstStays(s);
    if encoded[at] != PAD {
      quad := Join3(quad, Lookup(encoded[at]));
      at := at + 1;
      decoded[end] := Second(quad);
      end := end + 1;
      if encoded[at] != PAD {
        quad := Join4(quad, Lookup(encoded[at]));
        decoded[end] := Third(quad);
        end := end + 1;
        assert decoded[o..end] == [First(Two(s)), Second(Three(s)), Third(Four(s))];
      } else {
        assert decoded[o..end] == [First(Two(s)), Second(Three(s))];
      }
    } else if encoded[at + 1] != PAD {
      return -1;
    } else {
      assert decoded[o..end] == [First(Two(s))];
    }
    if !Clean(quad) {
      return -1;
    }
    return end;
  }

  // Bytes are written before the letters below them are known: these do not reach up to them
  // unless they are invalid.
  lemma FirstStays(s: seq<bv8>)
    requires |s| >= 4
    ensures Clean(Three(s)) ==> First(Three(s)) == First(Two(s))
    ensures Clean(Four(s)) ==> First(Four(s)) == First(Two(s)) && Second(Four(s)) == Second(Three(s))
  {
    hide Lookup, Join2, Join3, Join4, First, Second, Third, Clean, InAlphabet;
    OneMaskTest(s);
    LookupKnowsTheAlphabet(s[2]);
    LookupKnowsTheAlphabet(s[3]);
    LowBitsStayLow(Two(s), Lookup(s[2]), Lookup(s[3]));
  }

  lemma LowBitsStayLow(two: bv32, c: bv32, d: bv32)
    ensures c < 64 ==> First(Join3(two, c)) == First(two)
    ensures c < 64 && d < 64 ==> First(Join4(Join3(two, c), d)) == First(two)
    ensures d < 64 ==> Second(Join4(Join3(two, c), d)) == Second(Join3(two, c))
  {
  }

  datatype ReadResult =
    | Data(bytes: seq<bv8>)
    | TooLarge
    | BadInput

  const MAX_SIZE := 100 * 1024 * 1024

  // base64_read allocates the input length rounded up to a multiple of 4.
  method Base64Read(buffer: array<bv8>) returns (result: ReadResult)
    ensures result.TooLarge? <==> (buffer.Length + 3) / 4 * 4 > MAX_SIZE
    ensures !result.TooLarge? ==> (result.Data? <==> Legal(buffer[..]))
    ensures result.Data? ==> Decode(buffer[..]) == Some(result.bytes)
  {
    var room := (buffer.Length + 3) / 4 * 4;
    if room > MAX_SIZE {
      return TooLarge;
    }
    var decoded := new bv8[room];
    AcceptsExactlyTheLegal(buffer[..]);
    var size := Base64Decode(buffer, decoded);
    if size == -1 {
      return BadInput;
    }
    return Data(decoded[..size]);
  }
}
