/** ic_base64_decode: the language it accepts, what it makes of it, and that it
    undoes the encoder. */
module Base64Decode {
  import opened Base64

  /** How many '=' a text holds. */
  function Pads(s: seq<Byte>): nat {
    if s == [] then 0 else Pads(s[..|s| - 1]) + (if s[|s| - 1] == PAD then 1 else 0)
  }

  lemma {:induction false} PadsConcat(a: seq<Byte>, b: seq<Byte>)
    ensures Pads(a + b) == Pads(a) + Pads(b)
  {
    if b == [] {
      assert a + b == a;
    } else {
      var n := |b| - 1;
      assert (a + b)[..|a + b| - 1] == a + b[..n];
      PadsConcat(a, b[..n]);
    }
  }

  lemma {:induction false} PadsZeroIff(s: seq<Byte>)
    ensures Pads(s) == 0 <==> PAD !in s
  {
    if s != [] {
      PadsZeroIff(s[..|s| - 1]);
      assert s == s[..|s| - 1] + [s[|s| - 1]];
    }
  }

  /** Groups of four characters of the alphabet or '='; '=' only in the last
      group, and at most two of them. */
  ghost predicate Language(s: seq<Byte>) {
    && |s| % 4 == 0
    && Known(s)
    && Pads(s) <= 2
    && (s != [] ==> PAD !in s[..|s| - 4])
  }

  predicate Known(s: seq<Byte>) {
    forall i :: 0 <= i < |s| ==> Value(s[i]) <= 64
  }

  /** Six bits of a character, '=' counting as zero. */
  function Six(c: Byte): (v: nat)
    ensures v < 64
  {
    if Value(c) < 64 then Value(c) else 0
  }

  /** Four times six bits make three bytes. */
  function Triple(a: Byte, b: Byte, c: Byte, d: Byte): (t: seq<Byte>)
    ensures |t| == 3
  {
    [Six(a) * 4 + Six(b) / 16, Six(b) % 16 * 16 + Six(c) / 4, Six(c) % 4 * 64 + Six(d)]
  }

  function Regroup(s: seq<Byte>): (r: seq<Byte>)
    requires |s| % 4 == 0
    ensures |r| == 3 * (|s| / 4)
  {
    if s == [] then [] else Triple(s[0], s[1], s[2], s[3]) + Regroup(s[4..])
  }

  lemma {:induction false} RegroupSnoc(s: seq<Byte>, g: seq<Byte>)
    requires |s| % 4 == 0 && |g| == 4
    ensures Regroup(s + g) == Regroup(s) + Triple(g[0], g[1], g[2], g[3])
  {
    if s == [] {
      assert s + g == g;
      assert g[4..] == [];
    } else {
      assert (s + g)[4..] == s[4..] + g;
      RegroupSnoc(s[4..], g);
    }
  }

  // ----- the decoder -----

  /** The inner loop: the six-bit values of one group, or `bad` when a character
      does not belong or there are three '='. */
  method DecodeGroup(src: seq<Byte>, at: nat) returns (bad: bool, six: seq<nat>, pads: nat)
    requires at + 4 <= |src|
    ensures bad <==> !Known(src[at..at + 4]) || Pads(src[at..at + 4]) > 2
    ensures !bad ==> pads == Pads(src[at..at + 4])
    ensures !bad ==> |six| == 4 && forall i :: 0 <= i < 4 ==> six[i] == Six(src[at + i])
  {
    hide *;
    ghost var group := src[at..at + 4];
    six, pads := [], 0;
    NothingRead(group[..0]);
    for i: nat := 0 to 4
      invariant |six| == i && forall j :: 0 <= j < i ==> six[j] == Six(src[at + j])
      invariant Known(group[..i]) && pads == Pads(group[..i]) <= 2
    {
      var conv := DecodeEntry(src[at + i]);
      PadsGrow(group, i);
      ValueFacts(src[at + i]);
      if conv == 65 {
        return true, [], 0;
      }
      if conv == 64 {
        pads := pads + 1;
        if pads == 3 {
          return true, [], 0;
        }
      }
      six := six + [conv % 64];
    }
    assert group[..4] == group;
    return false, six, pads;
  }

  /** The entry of the decode table; characters outside its range have none. */
  function DecodeEntry(c: Byte): (v: nat)
    ensures v == Value(c)
  {
    DecodeTableIsInverse(c);
    if c < 43 || c > 122 then 65 else DECODE_TABLE[c - 43]
  }

  lemma ValueFacts(c: Byte)
    ensures Value(c) <= 65 && (Value(c) == 64 <==> c == PAD)
    ensures Value(c) <= 64 ==> Six(c) == Value(c) % 64
  {
  }

  lemma NothingRead(s: seq<Byte>)
    requires s == []
    ensures Known(s) && Pads(s) == 0
  {
  }

  /** One more character. */
  lemma PadsGrow(group: seq<Byte>, i: nat)
    requires i < |group|
    ensures Pads(group[..i + 1]) == Pads(group[..i]) + (if group[i] == PAD then 1 else 0)
    ensures Pads(group[..i + 1]) <= Pads(group)
    ensures Known(group[..i]) ==> (Known(group[..i + 1]) <==> Value(group[i]) <= 64)
    ensures Known(group) ==> Known(group[..i + 1])
  {
    hide *;
    var longer, rest := group[..i + 1], group[i + 1..];
    assert longer == group[..i] + [group[i]] && group == longer + rest;
    PadsOfOne(group[i]);
    PadsConcat(group[..i], [group[i]]);
    PadsConcat(longer, rest);
    KnownGrow(group, i);
  }

  lemma PadsOfOne(c: Byte)
    ensures Pads([c]) == if c == PAD then 1 else 0
  {
    assert [c][..0] == [];
  }

  lemma KnownGrow(group: seq<Byte>, i: nat)
    requires i < |group|
    ensures Known(group[..i]) ==> (Known(group[..i + 1]) <==> Value(group[i]) <= 64)
    ensures Known(group) ==> Known(group[..i + 1])
  {
    hide Value;
    assert group[..i + 1] == group[..i] + [group[i]];
  }

  /** ic_base64_decode. `destLen` is the room the caller announces; a group is
      decoded whenever it starts within it, so the buffer must hold two bytes
      more. The input length must be a multiple of four, else bytes behind it
      are read. */
  method Decode(dest: array<Byte>, destLen: nat, src: seq<Byte>) returns (code: int, len: nat)
    requires |src| % 4 == 0 && dest.Length >= destLen + 2
    modifies dest
    ensures code == 0 <==> Language(src) && HasRoom(|src| / 4, destLen)
    ensures code == 0 || code == 1
    ensures code == 0 ==>
              && len == 3 * (|src| / 4) - Pads(src)
              && 3 * (|src| / 4) <= dest.Length
              && dest[..3 * (|src| / 4)] == Regroup(src)
  {
    ghost var groups := |src| / 4;
    assert |src| == 4 * groups;
    hide *;
    code, len := DecodeGroups(dest, destLen, src, groups);
  }

  /** The decode loop over `groups` groups. */
  method DecodeGroups(dest: array<Byte>, destLen: nat, src: seq<Byte>, ghost groups: nat) returns (code: int, len: nat)
    requires |src| == 4 * groups && dest.Length >= destLen + 2
    modifies dest
    ensures code == 0 <==> Language(src) && HasRoom(groups, destLen)
    ensures code == 0 || code == 1
    ensures code == 0 ==>
              && len == 3 * groups - Pads(src) && 3 * groups <= dest.Length && dest[..3 * groups] == Regroup(src)
  {
    hide *;
    var inx, at, tot, last := 0, 0, 0, false;
    ghost var g: nat := 0;
    NothingDecoded(src, dest[..0]);
    while inx < destLen && at < |src|
      invariant at == 4 * g <= |src| && inx == 3 * g <= dest.Length
      invariant g > 0 ==> 3 * (g - 1) < destLen
      invariant Decoded(src, at, g, last, tot, dest[..inx])
      decreases |src| - at
    {
      var bad;
      bad, last, tot := DecodeRound(dest, inx, src, at, last, tot, g);
      if bad {
        return 1, 0;
      }
      at, inx, g := at + 4, inx + 3, g + 1;
    }
    RoomIff(groups, g, destLen);
    if at != |src| {
      return 1, 0;
    }
    WholeDecoded(src, g, last, tot, dest[..inx]);
    return 0, tot;
  }

  lemma NothingDecoded(src: seq<Byte>, out: seq<Byte>)
    requires out == []
    ensures Decoded(src, 0, 0, false, 0, out)
  {
    assert src[..0] == [];
  }

  /** After `g` groups: `out` is their decoding, `last` tells of a '=' and
      `tot` counts the bytes that stand for input. */
  ghost predicate Decoded(src: seq<Byte>, at: nat, g: nat, last: bool, tot: nat, out: seq<Byte>) {
    && at == 4 * g <= |src|
    && Language(src[..at])
    && (last <==> PAD in src[..at])
    && tot == 3 * g - Pads(src[..at])
    && out == Regroup(src[..at])
  }

  lemma WholeDecoded(src: seq<Byte>, g: nat, last: bool, tot: nat, out: seq<Byte>)
    requires |src| == 4 * g && Decoded(src, |src|, g, last, tot, out)
    ensures Language(src) && tot == 3 * g - Pads(src) && out == Regroup(src)
  {
    assert src[..|src|] == src;
  }

  /** One round of the decode loop. */
  method DecodeRound(dest: array<Byte>, inx: nat, src: seq<Byte>, at: nat, last: bool, tot: nat, ghost g: nat)
    returns (bad: bool, last': bool, tot': nat)
    requires at + 4 <= |src| && inx == 3 * g && inx + 3 <= dest.Length
    requires Decoded(src, at, g, last, tot, dest[..inx])
    modifies dest
    ensures bad ==> !Language(src)
    ensures !bad ==> Decoded(src, at + 4, g + 1, last', tot', dest[..inx + 3])
  {
    hide Regroup, Pads, Known, Value, Triple;
    if last {
      Spoiled(src, at);
      return true, last, tot;
    }
    var pads;
    bad, pads := DecodeOne(dest, inx, src, at);
    if bad {
      Spoiled(src, at);
      return true, last, tot;
    }
    Extended(src, at);
    hide Language;
    return false, pads > 0, tot + 3 - pads;
  }

  /** Room is decided by where the last group starts. */
  lemma RoomIff(groups: nat, g: nat, destLen: nat)
    requires g <= groups
    ensures g < groups && 3 * g >= destLen ==> !HasRoom(groups, destLen)
    ensures g == groups && (g > 0 ==> 3 * (g - 1) < destLen) ==> HasRoom(groups, destLen)
  {
  }

  /** Decode the group at `at` to position `inx`. */
  method DecodeOne(dest: array<Byte>, inx: nat, src: seq<Byte>, at: nat) returns (bad: bool, pads: nat)
    requires at + 4 <= |src| && inx + 3 <= dest.Length
    modifies dest
    ensures bad <==> !Known(src[at..at + 4]) || Pads(src[at..at + 4]) > 2
    ensures !bad ==>
              && pads == Pads(src[at..at + 4])
              && dest[..inx + 3] == old(dest[..inx]) + Triple(src[at], src[at + 1], src[at + 2], src[at + 3])
  {
    hide Value, Pads, Known;
    var six;
    bad, six, pads := DecodeGroup(src, at);
    if !bad {
      PutTriple(dest, inx, six);
    }
  }

  predicate HasRoom(groups: nat, destLen: nat) {
    groups == 0 || 3 * (groups - 1) < destLen
  }

  method PutTriple(dest: array<Byte>, inx: nat, six: seq<nat>)
    requires |six| == 4 && (forall i :: 0 <= i < 4 ==> six[i] < 64) && inx + 3 <= dest.Length
    modifies dest
    ensures dest[..inx + 3] == old(dest[..inx])
      + [six[0] * 4 + six[1] / 16, six[1] % 16 * 16 + six[2] / 4, six[2] % 4 * 64 + six[3]]
  {
    dest[inx] := six[0] * 4 + six[1] / 16;
    dest[inx + 1] := six[1] % 16 * 16 + six[2] / 4;
    dest[inx + 2] := six[2] % 4 * 64 + six[3];
  }

  /** A group that does not decode, or that follows a '=', spoils the whole text. */
  lemma Spoiled(src: seq<Byte>, at: nat)
    requires at + 4 <= |src|
    requires var g := src[at..at + 4]; PAD in src[..at] || !Known(g) || Pads(g) > 2
    ensures !Language(src)
  {
    var g := src[at..at + 4];
    hide Value;
    assert src == src[..at] + g + src[at + 4..];
    PadsConcat(src[..at] + g, src[at + 4..]);
    PadsConcat(src[..at], g);
    assert PAD in src[..at] ==> PAD in src[..|src| - 4];
    assert Known(src) ==> Known(g);
  }

  /** What one more good group means for the part read so far. */
  lemma Extended(src: seq<Byte>, at: nat)
    requires at % 4 == 0 && at + 4 <= |src| && Language(src[..at])
    requires var g := src[at..at + 4]; PAD !in src[..at] && Known(g) && Pads(g) <= 2
    ensures var g := src[at..at + 4];
            && Language(src[..at + 4])
            && Pads(src[..at]) == 0 && Pads(src[..at + 4]) == Pads(g)
            && (PAD in src[..at + 4] <==> Pads(g) > 0)
            && Regroup(src[..at + 4]) == Regroup(src[..at]) + Triple(g[0], g[1], g[2], g[3])
  {
    hide *;
    var before, g := src[..at], src[at..at + 4];
    var longer := src[..at + 4];
    assert longer == before + g;
    PadsConcat(before, g);
    PadsZeroIff(before);
    PadsZeroIff(longer);
    RegroupSnoc(before, g);
    LanguageGrows(before, g, longer);
  }

  lemma LanguageGrows(before: seq<Byte>, g: seq<Byte>, longer: seq<Byte>)
    requires Language(before) && |g| == 4 && PAD !in before && Known(g) && longer == before + g && Pads(longer) <= 2
    ensures Language(longer)
  {
    hide Value, Pads;
    assert longer[..|longer| - 4] == before;
    assert Known(longer);
  }

  // ----- decoding what was encoded -----

  /** The text without its line breaks. */
  function Strip(s: seq<Byte>): seq<Byte> {
    if s == [] then []
    else Strip(s[..|s| - 1]) + (if s[|s| - 1] == CR then [] else [s[|s| - 1]])
  }

  lemma {:induction false} StripConcat(a: seq<Byte>, b: seq<Byte>)
    ensures Strip(a + b) == Strip(a) + Strip(b)
  {
    if b == [] {
      assert a + b == a;
    } else {
      var n := |b| - 1;
      assert (a + b)[..|a + b| - 1] == a + b[..n];
      StripConcat(a, b[..n]);
    }
  }

  lemma {:induction false} StripPlain(s: seq<Byte>)
    requires CR !in s
    ensures Strip(s) == s
  {
    if s != [] {
      StripPlain(s[..|s| - 1]);
    }
  }

  lemma {:induction false} StripBroken(t: seq<Byte>)
    requires CR !in t
    ensures Strip(Broken(t)) == t
  {
    if |t| < LINE {
      StripPlain(t);
    } else {
      StripBroken(t[LINE..]);
      StripPlain(t[..LINE]);
      StripConcat(t[..LINE], [CR]);
      StripConcat(t[..LINE] + [CR], Broken(t[LINE..]));
      assert Strip([CR]) == [];
    }
  }

  lemma LetterFacts(i: nat)
    requires i < 64
    ensures Value(Letter(i)) == i && Letter(i) != CR && Letter(i) != PAD
  {
  }

  /** Splitting three bytes into six-bit parts and joining them again. */
  lemma JoinOfSplit(a: Byte, b: Byte, c: Byte)
    ensures a / 4 * 4 + (a % 4 * 16 + b / 16) / 16 == a
    ensures (a % 4 * 16 + b / 16) % 16 * 16 + (b % 16 * 4 + c / 64) / 4 == b
    ensures (b % 16 * 4 + c / 64) % 4 * 64 + c % 64 == c
  {
  }

  lemma QuadFacts(a: Byte, b: Byte, c: Byte)
    ensures var q := Quad(a, b, c); Known(q) && CR !in q && PAD !in q && Triple(q[0], q[1], q[2], q[3]) == [a, b, c]
  {
    LetterFacts(a / 4);
    LetterFacts(a % 4 * 16 + b / 16);
    LetterFacts(b % 16 * 4 + c / 64);
    LetterFacts(c % 64);
    hide Letter, Value;
    JoinOfSplit(a, b, c);
  }

  lemma Quad2Facts(a: Byte, b: Byte)
    ensures var q := Quad2(a, b);
            && Known(q) && CR !in q && q[0] != PAD && q[1] != PAD && q[2] != PAD && q[3] == PAD
            && Triple(q[0], q[1], q[2], q[3]) == [a, b, 0]
  {
    LetterFacts(a / 4);
    LetterFacts(a % 4 * 16 + b / 16);
    LetterFacts(b % 16 * 4);
    assert Value(PAD) == 64;
    hide Letter, Value;
    JoinOfSplit(a, b, 0);
  }

  lemma Quad1Facts(a: Byte)
    ensures var q := Quad1(a);
            && Known(q) && CR !in q && q[0] != PAD && q[1] != PAD && q[2] == PAD && q[3] == PAD
            && Triple(q[0], q[1], q[2], q[3]) == [a, 0, 0]
  {
    LetterFacts(a / 4);
    LetterFacts(a % 4 * 16);
    assert Value(PAD) == 64;
    hide Letter, Value;
    JoinOfSplit(a, 0, 0);
  }

  lemma PadsOfFour(q: seq<Byte>)
    requires |q| == 4
    ensures Pads(q) == (if q[0] == PAD then 1 else 0) + (if q[1] == PAD then 1 else 0)
                     + (if q[2] == PAD then 1 else 0) + (if q[3] == PAD then 1 else 0)
  {
    assert q[..3][..2] == q[..2] && q[..2][..1] == q[..1] && q[..1][..0] == [];
    assert Pads(q[..1]) == if q[0] == PAD then 1 else 0;
    assert Pads(q[..2]) == Pads(q[..1]) + if q[1] == PAD then 1 else 0;
    assert Pads(q[..3]) == Pads(q[..2]) + if q[2] == PAD then 1 else 0;
  }

  function Zeros(n: nat): (z: seq<Byte>)
    ensures |z| == n
  {
    if n == 0 then [] else [0] + Zeros(n - 1)
  }

  /** What is true of a text: its shape, and that regrouping gives its source
      back, with a zero byte for each '='. */
  ghost predicate Faithful(t: seq<Byte>, src: seq<Byte>) {
    && Language(t) && CR !in t
    && Pads(t) == (3 - |src| % 3) % 3
    && |src| == 3 * (|t| / 4) - Pads(t)
    && Regroup(t) == src + Zeros(Pads(t))
  }

  lemma {:induction false} TextIsFaithful(src: seq<Byte>)
    ensures Faithful(Text(src), src)
    decreases |src|
  {
    if |src| == 0 {
    } else if |src| <= 2 {
      ShortTextIsFaithful(src);
    } else {
      TextIsFaithful(src[3..]);
      QuadThenFaithful(Quad(src[0], src[1], src[2]), src);
    }
  }

  lemma ZerosAre()
    ensures Zeros(0) == [] && Zeros(1) == [0] && Zeros(2) == [0, 0]
  {
  }

  lemma OneByteIsFaithful(a: Byte)
    ensures Faithful(Text([a]), [a])
  {
    assert Text([a]) == Quad1(a);
    hide *;
    Quad1Facts(a);
    ZerosAre();
    FaithfulQuad(Quad1(a), [a]);
  }

  lemma TwoBytesAreFaithful(a: Byte, b: Byte)
    ensures Faithful(Text([a, b]), [a, b])
  {
    assert Text([a, b]) == Quad2(a, b);
    hide *;
    Quad2Facts(a, b);
    ZerosAre();
    FaithfulQuad(Quad2(a, b), [a, b]);
  }

  lemma ShortTextIsFaithful(src: seq<Byte>)
    requires 1 <= |src| <= 2
    ensures Faithful(Text(src), src)
  {
    hide *;
    if |src| == 1 {
      OneByteIsFaithful(src[0]);
      assert src == [src[0]];
    } else {
      TwoBytesAreFaithful(src[0], src[1]);
      assert src == [src[0], src[1]];
    }
  }

  lemma FaithfulQuad(q: seq<Byte>, src: seq<Byte>)
    requires |q| == 4 && Known(q) && CR !in q && 1 <= |src| <= 2
    requires q[0] != PAD && q[1] != PAD && q[3] == PAD && (q[2] == PAD <==> |src| == 1)
    requires Triple(q[0], q[1], q[2], q[3]) == src + Zeros(3 - |src|)
    ensures Faithful(q, src)
  {
    PadsOfFour(q);
    hide Pads, Value, Six;
    assert q[..0] == [] && q[4..] == [];
    assert Regroup(q) == Triple(q[0], q[1], q[2], q[3]) + [];
    hide Regroup;
    assert Regroup(q) == src + Zeros(3 - |src|);
  }

  lemma RegroupUnfold(q: seq<Byte>, rest: seq<Byte>)
    requires |q| == 4 && |rest| % 4 == 0
    ensures Regroup(q + rest) == Triple(q[0], q[1], q[2], q[3]) + Regroup(rest)
  {
    hide Six;
    assert (q + rest)[4..] == rest;
  }

  lemma FirstThree(src: seq<Byte>)
    requires |src| >= 3
    ensures src == [src[0], src[1], src[2]] + src[3..]
  {
  }

  lemma QuadThenFaithful(q: seq<Byte>, src: seq<Byte>)
    requires |src| >= 3 && q == Quad(src[0], src[1], src[2]) && Faithful(Text(src[3..]), src[3..])
    ensures Faithful(Text(src), src)
  {
    var rest := Text(src[3..]);
    QuadFacts(src[0], src[1], src[2]);
    assert Text(src) == q + rest;
    assert |rest| % 4 == 0;
    hide *;
    FirstThree(src);
    RegroupUnfold(q, rest);
    PadsConcat(q, rest);
    PadsZeroIff(q);
    Prefixed(q, rest, [src[0], src[1], src[2]], src[3..]);
  }

  /** A group without '=' in front keeps a text faithful. */
  lemma Prefixed(q: seq<Byte>, rest: seq<Byte>, three: seq<Byte>, src: seq<Byte>)
    requires |q| == 4 && |three| == 3 && Known(q) && CR !in q && PAD !in q && Faithful(rest, src)
    requires Pads(q + rest) == Pads(rest) && Regroup(q + rest) == three + Regroup(rest)
    ensures Faithful(q + rest, three + src)
  {
    hide Regroup, Pads, Value;
    var t := q + rest;
    assert Language(t) by {
      if rest != [] {
        assert t[..|t| - 4] == q + rest[..|rest| - 4];
      } else {
        assert t[..|t| - 4] == [];
      }
    }
    assert three + (src + Zeros(Pads(rest))) == three + src + Zeros(Pads(rest));
  }

  /** Removing the line breaks from what the encoder writes gives the text. */
  lemma StripEncoded(src: seq<Byte>)
    ensures Strip(Encoded(src)) == Text(src)
  {
    var t := Text(src);
    TextIsFaithful(src);
    StripBroken(t);
    StripConcat(Broken(t), [CR]);
    assert Strip([CR]) == [];
    assert Broken(t) + [] == Broken(t);
    hide Broken, Text;
    assert t + [] == t;
  }

  /** The round trip: encode, remove line breaks, decode. The decoder accepts
      the text in a buffer of the source's size and gives the source back. */
  lemma RoundTrip(src: seq<Byte>)
    ensures var t := Strip(Encoded(src));
            && Language(t)
            && HasRoom(|t| / 4, |src|)
            && 3 * (|t| / 4) - Pads(t) == |src|
            && Regroup(t) == src + Zeros(Pads(t))
  {
    StripEncoded(src);
    TextIsFaithful(src);
    hide Pads, Regroup, Language, Text, Broken, Strip;
  }

  // ----- line lengths -----

  /** Characters since the last CR. */
  function OpenRun(s: seq<Byte>): nat {
    if s == [] || s[|s| - 1] == CR then 0 else OpenRun(s[..|s| - 1]) + 1
  }

  /** No line is longer than 76 characters, at any point of the output. */
  ghost predicate ShortLines(s: seq<Byte>) {
    forall n :: 0 <= n <= |s| ==> OpenRun(s[..n]) <= LINE
  }

  lemma {:induction false} OpenRunConcat(a: seq<Byte>, b: seq<Byte>)
    requires a == [] || a[|a| - 1] == CR
    ensures OpenRun(a + b) == OpenRun(b)
  {
    if b == [] {
      assert a + b == a;
    } else {
      assert (a + b)[..|a + b| - 1] == a + b[..|b| - 1];
      OpenRunConcat(a, b[..|b| - 1]);
    }
  }

  lemma {:induction false} OpenRunBound(s: seq<Byte>)
    ensures OpenRun(s) <= |s|
  {
    if s != [] {
      OpenRunBound(s[..|s| - 1]);
    }
  }

  /** Every line the encoder writes has at most 76 characters, and every line
      is ended. */
  lemma LinesAreShort(src: seq<Byte>)
    ensures ShortLines(Encoded(src))
    ensures Encoded(src) != [] ==> Encoded(src)[|Encoded(src)| - 1] == CR
  {
    var t := Text(src);
    var tail := if |t| % LINE == 0 then [] else [CR];
    ShortBroken(t, tail);
    BrokenEndsWithCR(t);
  }

  lemma {:induction false} BrokenEndsWithCR(t: seq<Byte>)
    ensures t != [] && |t| % LINE == 0 ==> Broken(t) != [] && Broken(t)[|Broken(t)| - 1] == CR
  {
    if |t| >= LINE {
      BrokenEndsWithCR(t[LINE..]);
    }
  }

  lemma {:induction false} ShortBroken(t: seq<Byte>, tail: seq<Byte>)
    requires tail == [] || tail == [CR]
    ensures ShortLines(Broken(t) + tail)
  {
    var s := Broken(t) + tail;
    if |t| < LINE {
      forall n | 0 <= n <= |s| ensures OpenRun(s[..n]) <= LINE {
        OpenRunBound(s[..n]);
      }
    } else {
      var first, rest := t[..LINE] + [CR], Broken(t[LINE..]) + tail;
      ShortBroken(t[LINE..], tail);
      assert s == first + rest;
      hide Broken;
      forall n | 0 <= n <= |s| ensures OpenRun(s[..n]) <= LINE {
        if n <= LINE {
          OpenRunBound(s[..n]);
        } else {
          assert s[..n] == first + rest[..n - |first|];
          OpenRunConcat(first, rest[..n - |first|]);
        }
      }
    }
  }

  /** A line break stands behind every 76 characters and at the end, and
      nowhere else. */
  lemma BreaksAreAt(src: seq<Byte>, i: nat)
    requires i < |Encoded(src)|
    ensures Encoded(src)[i] == CR <==> (i + 1) % (LINE + 1) == 0 || i == |Encoded(src)| - 1
  {
    var t := Text(src);
    TextIsFaithful(src);
    LinesAreShort(src);
    BrokenBreaks(t);
  }

  lemma {:induction false} BrokenBreaks(t: seq<Byte>)
    requires CR !in t
    ensures forall i :: 0 <= i < |Broken(t)| ==> (Broken(t)[i] == CR <==> (i + 1) % (LINE + 1) == 0)
  {
    if |t| >= LINE {
      var rest := Broken(t[LINE..]);
      BrokenBreaks(t[LINE..]);
      forall i | 0 <= i < |Broken(t)| ensures Broken(t)[i] == CR <==> (i + 1) % (LINE + 1) == 0 {
        if i > LINE {
          assert Broken(t)[i] == rest[i - (LINE + 1)];
        }
      }
    }
  }

  // ----- text and bytes are one number -----

  /** Bytes as one big-endian number. */
  function ByteNumber(s: seq<Byte>): nat {
    if s == [] then 0 else 256 * ByteNumber(s[..|s| - 1]) + s[|s| - 1]
  }

  /** Characters as one big-endian number of six-bit digits. */
  function SixNumber(s: seq<Byte>): nat {
    if s == [] then 0 else 64 * SixNumber(s[..|s| - 1]) + Six(s[|s| - 1])
  }

  lemma BytesSnoc(s: seq<Byte>, t: seq<Byte>)
    requires |t| == 3
    ensures ByteNumber(s + t) == 0x1_000000 * ByteNumber(s) + (t[0] as int) * 0x1_0000 + (t[1] as int) * 0x100 + t[2]
  {
    var all := s + t;
    var n := |s|;
    assert all[..n + 2][..n + 1] == all[..n + 1] && all[..n + 1][..n] == all[..n] == s;
    assert ByteNumber(all) == 256 * ByteNumber(all[..n + 2]) + t[2];
    assert ByteNumber(all[..n + 2]) == 256 * ByteNumber(all[..n + 1]) + t[1];
    assert ByteNumber(all[..n + 1]) == 256 * ByteNumber(s) + t[0];
  }

  lemma SixesSnoc(s: seq<Byte>, q: seq<Byte>)
    requires |q| == 4
    ensures SixNumber(s + q) ==
              0x1_000000 * SixNumber(s) + 0x4_0000 * Six(q[0]) + 0x1000 * Six(q[1]) + 0x40 * Six(q[2]) + Six(q[3])
  {
    hide Six;
    var all := s + q;
    var n := |s|;
    assert all[..n + 3][..n + 2] == all[..n + 2] && all[..n + 2][..n + 1] == all[..n + 1];
    assert all[..n + 1][..n] == all[..n] == s;
    assert SixNumber(all) == 64 * SixNumber(all[..n + 3]) + Six(q[3]);
    assert SixNumber(all[..n + 3]) == 64 * SixNumber(all[..n + 2]) + Six(q[2]);
    assert SixNumber(all[..n + 2]) == 64 * SixNumber(all[..n + 1]) + Six(q[1]);
    assert SixNumber(all[..n + 1]) == 64 * SixNumber(s) + Six(q[0]);
  }

  /** Decoding keeps the number that the characters stand for. */
  lemma {:induction false} RegroupIsSameNumber(s: seq<Byte>)
    requires |s| % 4 == 0
    ensures ByteNumber(Regroup(s)) == SixNumber(s)
  {
    if s != [] {
      var at := |s| - 4;
      var q := s[at..];
      RegroupIsSameNumber(s[..at]);
      assert s == s[..at] + q;
      RegroupSnoc(s[..at], q);
      BytesSnoc(Regroup(s[..at]), Triple(q[0], q[1], q[2], q[3]));
      SixesSnoc(s[..at], q);
      hide ByteNumber, SixNumber, Regroup, Six;
    }
  }

  /** Encoding keeps the number that the bytes stand for, once the last group is
      filled up with zero bytes. */
  lemma TextIsSameNumber(src: seq<Byte>)
    ensures SixNumber(Text(src)) == ByteNumber(src + Zeros((3 - |src| % 3) % 3))
  {
    TextIsFaithful(src);
    hide Text, Pads, Regroup;
    RegroupIsSameNumber(Text(src));
  }
}
