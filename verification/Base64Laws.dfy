/** What Base64 text is, independently of coder and decoder: the alphabet, the bits behind the characters, where
    they are, and what any text stands for. */
module Base64Laws {
  import opened Wrappers
  import opened Base64

  // ----- the alphabet -----

  /** The alphabet of RFC 1341, section 5.2. */
  const CAPITALS: string := "ABCDEFGHIJKLMNOPQRSTUVWXYZ"
  const SMALL: string := "abcdefghijklmnopqrstuvwxyz"
  const DIGITS: string := "0123456789"
  const ALPHABET: string := CAPITALS + SMALL + DIGITS + "+/"

  lemma CapitalIs(v: nat)
    requires v < 26
    ensures |CAPITALS| == 26 && Char(v) as char == CAPITALS[v]
  {
  }

  lemma SmallIs(v: nat)
    requires v < 26
    ensures |SMALL| == 26 && Char(26 + v) as char == SMALL[v]
  {
  }

  lemma DigitIs(v: nat)
    requires v < 10
    ensures |DIGITS| == 10 && Char(52 + v) as char == DIGITS[v]
  {
  }

  /** The encoder's table is the alphabet. */
  lemma CharIsAlphabet(v: nat)
    requires v < 64
    ensures |ALPHABET| == 64 && Char(v) as char == ALPHABET[v]
  {
    CapitalIs(if v < 26 then v else 0);
    SmallIs(if 26 <= v < 52 then v - 26 else 0);
    DigitIs(if 52 <= v < 62 then v - 52 else 0);
  }

  // ----- the text of an input -----

  /** The 24 bits of three octets are those of the four values behind the characters. */
  lemma {:induction false} QuadBits(a: Octet, b: Octet, c: Octet) returns (w: nat, x: nat, y: nat, z: nat)
    ensures w < 64 && x < 64 && y < 64 && z < 64 && Quad(a, b, c) == [Char(w), Char(x), Char(y), Char(z)]
    ensures ((w * 64 + x) * 64 + y) * 64 + z == ((a as nat) * 256 + b) * 256 + c
  {
    w, x, y, z := a / 4, a % 4 * 16 + b / 16, b % 16 * 4 + c / 64, c % 64;
    BitsOf(a, 4);
    BitsOf(b, 16);
    BitsOf(c, 64);
  }

  lemma BitsOf(n: nat, d: nat)
    requires d == 4 || d == 16 || d == 64
    ensures n == n / d * d + n % d
  {
  }

  /** The same for the octets at the end: the bits that are missing are zero. */
  lemma {:induction false} LastQuadBits(o: seq<Octet>) returns (w: nat, x: nat, y: nat)
    requires |o| == 1 || |o| == 2
    ensures w < 64 && x < 64 && y < 64
    ensures if |o| == 1 then LastQuad(o) == [Char(w), Char(x), PAD, PAD] && w * 64 + x == (o[0] as nat) * 16
            else LastQuad(o) == [Char(w), Char(x), Char(y), PAD] && (w * 64 + x) * 64 + y == ((o[0] as nat) * 256 + o[1]) * 4
  {
    BitsOf(o[0], 4);
    if |o| == 1 {
      w, x, y := o[0] / 4, o[0] % 4 * 16, 0;
    } else {
      BitsOf(o[1], 16);
      w, x, y := o[0] / 4, o[0] % 4 * 16 + o[1] / 16, o[1] % 16 * 4;
    }
  }

  /** Where the characters of group `j` are: four for each group, and a line feed for every 18 groups. */
  lemma {:induction false} LinesAt(g: seq<seq<Octet>>, k: nat, j: nat, r: nat)
    requires j < k <= |g| && AllQuads(g) && r < 4
    ensures 4 * j + j / 18 + r < |Lines(g, k)| && Lines(g, k)[4 * j + j / 18 + r] == g[j][r]
    decreases k
  {
    var before := Lines(g, k - 1);
    assert |before| == 4 * (k - 1) + (k - 1) / 18;
    if j < k - 1 {
      LinesAt(g, k - 1, j, r);
    } else {
      assert Lines(g, k)[|before| + r] == g[j][r];
    }
  }

  /** The characters for group `j` of an input, the last of which may be short. */
  ghost function GroupText(s: seq<Octet>, j: nat): (q: seq<Octet>)
    requires 3 * j < |s|
    ensures |q| == 4
  {
    if 3 * j + 3 <= |s| then Quad(s[3 * j], s[3 * j + 1], s[3 * j + 2]) else LastQuad(s[3 * j..])
  }

  /** Where every character of a text is: four for each group, behind a line feed for every 18 groups. */
  lemma {:induction false} TextAt(s: seq<Octet>, j: nat, r: nat)
    requires r < 4 && 3 * j < |s|
    ensures 4 * j + j / 18 + r < |Text(s)| && Text(s)[4 * j + j / 18 + r] == GroupText(s, j)[r]
  {
    var k := |s| / 3;
    if 3 * j + 3 <= |s| {
      LinesAt(Groups(s), k, j, r);
      PrefixAt(Lines(Groups(s), k), Tail(s), End(s), 4 * j + j / 18 + r);
    } else {
      LastGroup(|s|, j);
      MiddleAt(Lines(Groups(s), k), Tail(s), End(s), r);
    }
  }

  lemma LastGroup(n: nat, j: nat)
    requires 3 * j < n < 3 * j + 3
    ensures n / 3 == j && n % 3 != 0
  {
  }

  /** Nothing else is in a text: its length is that of the groups, a line feed for every 18 full groups, and one at
      the end unless there is one already. */
  lemma {:induction false} TextLength(s: seq<Octet>)
    ensures |Text(s)| == 4 * ((|s| + 2) / 3) + |s| / 3 / 18 + (if |s| % 3 != 0 || |s| / 3 % 18 != 0 then 1 else 0)
    ensures |s| % 3 != 0 || |s| / 3 % 18 != 0 ==> Text(s)[|Text(s)| - 1] == NEWLINE
  {
    assert (|s| + 2) / 3 == |s| / 3 + if |s| % 3 == 0 then 0 else 1;
  }

  lemma MiddleAt(a: seq<Octet>, b: seq<Octet>, c: seq<Octet>, r: nat)
    requires r < |b|
    ensures (a + b + c)[|a| + r] == b[r]
  {
  }

  // ----- what a text stands for -----

  /** The decoder's table is the inverse of the alphabet; padding counts as zero, and nothing else counts. */
  lemma {:induction false} ValueIs(c: Octet, v: nat)
    requires v < 64
    ensures c == Char(v) ==> Value(c) == v
    ensures Value(c) == INVALID <==> c != PAD && forall w {:trigger Char(w)} :: 0 <= w < 64 ==> Char(w) != c
  {
    if c == Char(v) {
      ValueOfChar(v);
    }
    FindMeans(c, 64);
  }

  lemma {:induction false} FindMeans(c: Octet, n: nat)
    requires n <= 64
    ensures Find(c, n) == INVALID <==> forall w {:trigger Char(w)} :: 0 <= w < n ==> Char(w) != c
    ensures Find(c, n) != INVALID ==> Find(c, n) < n && Char(Find(c, n)) == c
  {
    if n > 0 {
      FindMeans(c, n - 1);
    }
  }

  /** The 24 bits of four values are those of three octets. */
  lemma {:induction false} UniteBits(a: nat, b: nat, c: nat, d: nat)
    requires a < 64 && b < 64 && c < 64 && d < 64
    ensures var o := Unite(a, b, c, d); ((o[0] as nat) * 256 + o[1]) * 256 + o[2] == ((a * 64 + b) * 64 + c) * 64 + d
  {
    BitsOf(b, 16);
    BitsOf(c, 4);
    LowOctet(a * 4 + b / 16, 0, a * 4 + b / 16);
    LowOctet(b * 16 + c / 4, b / 16, b % 16 * 16 + c / 4);
    LowOctet(c * 64 + d, c / 4, c % 4 * 64 + d);
  }

  lemma LowOctet(n: nat, high: nat, low: nat)
    requires n == 256 * high + low && low < 256
    ensures n % 256 == low
  {
  }

  /** The characters among the first `n` that count. */
  ghost function Kept(t: seq<Octet>, n: nat): (cs: seq<Octet>)
    requires n <= |t|
    ensures forall i :: 0 <= i < |cs| ==> Value(cs[i]) != INVALID
  {
    if n == 0 then [] else if Value(t[n - 1]) == INVALID then Kept(t, n - 1) else Kept(t, n - 1) + [t[n - 1]]
  }

  /** What the first `m` groups of four stand for. */
  ghost function GroupOctets(cs: seq<Octet>, m: nat): (o: seq<Octet>)
    requires 4 * m <= |cs|
    ensures |o| == 3 * m
  {
    if m == 0 then [] else GroupOctets(cs, m - 1) + Octets(cs[4 * m - 4..4 * m])
  }

  lemma {:induction false} GroupOctetsPrefix(cs: seq<Octet>, more: seq<Octet>, m: nat)
    requires 4 * m <= |cs|
    ensures GroupOctets(cs + more, m) == GroupOctets(cs, m)
  {
    if m > 0 {
      GroupOctetsPrefix(cs, more, m - 1);
      assert (cs + more)[4 * m - 4..4 * m] == cs[4 * m - 4..4 * m];
    }
  }

  /** The decoder's state is that of the characters that count, four by four. */
  ghost predicate Grouped(d: Dec, cs: seq<Octet>, m: nat) {
    && 4 * m <= |cs| < 4 * m + 4
    && d.group == cs[4 * m..] && d.out == GroupOctets(cs, m)
    && d.last == if m == 0 then [] else cs[4 * m - 4..4 * m]
  }

  lemma {:induction false} GroupedLonger(d: Dec, cs: seq<Octet>, m: nat, c: Octet)
    requires DecOk(d) && Grouped(d, cs, m) && Value(c) != INVALID && |d.group| < 3
    ensures Grouped(Step(d, c), cs + [c], m)
  {
    var ds := cs + [c];
    GroupOctetsPrefix(cs, [c], m);
    assert ds[4 * m..] == d.group + [c];
    assert m > 0 ==> ds[4 * m - 4..4 * m] == cs[4 * m - 4..4 * m];
  }

  lemma {:induction false} GroupedFull(d: Dec, cs: seq<Octet>, m: nat, c: Octet)
    requires DecOk(d) && Grouped(d, cs, m) && Value(c) != INVALID && |d.group| == 3
    ensures Grouped(Step(d, c), cs + [c], m + 1)
  {
    var ds, g := cs + [c], d.group + [c];
    GroupOctetsPrefix(cs, [c], m);
    assert ds[4 * m..4 * m + 4] == g && ds[4 * m + 4..] == [];
    assert GroupOctets(ds, m + 1) == GroupOctets(ds, m) + Octets(g);
  }

  lemma {:induction false} GroupedStep(d: Dec, cs: seq<Octet>, m: nat, c: Octet) returns (m': nat)
    requires DecOk(d) && Grouped(d, cs, m)
    ensures Grouped(Step(d, c), if Value(c) == INVALID then cs else cs + [c], m')
  {
    m' := m;
    if Value(c) != INVALID {
      if |d.group| < 3 {
        GroupedLonger(d, cs, m, c);
      } else {
        GroupedFull(d, cs, m, c);
        m' := m + 1;
      }
    }
  }

  lemma {:induction false} RunGrouped(t: seq<Octet>, n: nat) returns (m: nat)
    requires n <= |t|
    ensures Grouped(Run(START, t, n), Kept(t, n), m)
  {
    m := 0;
    for i := 0 to n
      invariant Grouped(Run(START, t, i), Kept(t, i), m)
    {
      m := GroupedStep(Run(START, t, i), Kept(t, i), m, t[i]);
    }
  }

  lemma {:induction false} WholeGrouped(d: Dec, cs: seq<Octet>, m: nat)
    requires DecOk(d) && Grouped(d, cs, m) && |cs| == 4 * m && m > 0
    ensures d.group == [] && d.out != []
    ensures var all := GroupOctets(cs, m);
      Trimmed(d) == all[..|all| - (if cs[|cs| - 2] == PAD then 2 else if cs[|cs| - 1] == PAD then 1 else 0)]
  {
    assert d.last[2] == cs[4 * m - 2] && d.last[3] == cs[4 * m - 1];
    assert d.out[..|d.out|] == d.out;
  }

  /** What any text is decoded to: the characters that count stand for three octets each four; as many octets as
      padding characters end the last group are left out, at most two. */
  lemma {:induction false} DecodedIs(t: seq<Octet>)
    ensures var cs := Kept(t, |t|);
      if cs == [] || |cs| % 4 != 0 then Decoded(t) == None
      else
        var all := GroupOctets(cs, |cs| / 4);
        Decoded(t) == Some(all[..|all| - (if cs[|cs| - 2] == PAD then 2 else if cs[|cs| - 1] == PAD then 1 else 0)])
  {
    var m := RunGrouped(t, |t|);
    var cs, d := Kept(t, |t|), Run(START, t, |t|);
    assert m == |cs| / 4 && |d.group| == |cs| - 4 * m;
    if cs != [] && |cs| % 4 == 0 {
      WholeGrouped(d, cs, m);
    }
  }
}
