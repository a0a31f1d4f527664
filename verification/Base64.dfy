/** Base64 (RFC 1341, section 5.2) with lines of at most 72 characters. */
module Base64 {
  import opened Wrappers

  type Octet = x: nat | x < 256

  const NEWLINE: Octet := 10
  const PAD: Octet := 61
  const INVALID: Octet := 0x80

  /** The encoder's table. */
  function Char(v: nat): (c: Octet)
    requires v < 64
    ensures c != PAD && c != NEWLINE
  {
    if v < 26 then 65 + v
    else if v < 52 then 97 + (v - 26)
    else if v < 62 then 48 + (v - 52)
    else if v == 62 then 43 else 47
  }

  lemma {:induction false} CharsDiffer(v: nat, w: nat)
    requires v < w < 64
    ensures Char(v) != Char(w)
  {
  }

  /** The last of the first `n` entries of the encoder's table that is `c`. */
  function Find(c: Octet, n: nat): (v: Octet)
    requires n <= 64
    ensures v < n || v == INVALID
  {
    if n == 0 then INVALID else if Char(n - 1) == c then n - 1 else Find(c, n - 1)
  }

  /** The decoder's table: padding counts as zero. */
  function Value(c: Octet): (v: Octet)
    ensures v < 64 || v == INVALID
  {
    if c == PAD then 0 else Find(c, 64)
  }

  lemma {:induction false} FindChar(v: nat, n: nat)
    requires v < n <= 64
    ensures Find(Char(v), n) == v
  {
    if v < n - 1 {
      CharsDiffer(v, n - 1);
      FindChar(v, n - 1);
    }
  }

  lemma {:induction false} ValueOfChar(v: nat)
    requires v < 64
    ensures Value(Char(v)) == v
  {
    FindChar(v, 64);
  }

  lemma {:induction false} NoNewline(n: nat)
    requires n <= 64
    ensures Find(NEWLINE, n) == INVALID
  {
    if n > 0 {
      NoNewline(n - 1);
    }
  }

  // ----- the encoded text -----

  /** The four characters for three octets. The shifts and masks of the program are divisions and
      remainders here. */
  function Quad(a: Octet, b: Octet, c: Octet): (q: seq<Octet>)
    ensures |q| == 4
  {
    [Char(a / 4), Char(a % 4 * 16 + b / 16), Char(b % 16 * 4 + c / 64), Char(c % 64)]
  }

  /** The characters for the one or two octets at the end. */
  function LastQuad(o: seq<Octet>): (q: seq<Octet>)
    requires |o| == 1 || |o| == 2
    ensures |q| == 4
  {
    if |o| == 1 then [Char(o[0] / 4), Char(o[0] % 4 * 16), PAD, PAD]
    else [Char(o[0] / 4), Char(o[0] % 4 * 16 + o[1] / 16), Char(o[1] % 16 * 4), PAD]
  }

  ghost predicate AllQuads(g: seq<seq<Octet>>) {
    forall j {:trigger g[j]} :: 0 <= j < |g| ==> |g[j]| == 4
  }

  /** The full groups of an input. */
  ghost function Groups(s: seq<Octet>): (g: seq<seq<Octet>>)
    ensures |g| == |s| / 3 && AllQuads(g)
  {
    seq(|s| / 3, j requires 0 <= j < |s| / 3 => Quad(s[3 * j], s[3 * j + 1], s[3 * j + 2]))
  }

  /** The text for the first `k` groups: a line feed follows every 18 groups. */
  ghost function Lines(g: seq<seq<Octet>>, k: nat): (t: seq<Octet>)
    requires k <= |g| && AllQuads(g)
    ensures |t| == 4 * k + k / 18
  {
    if k == 0 then [] else Lines(g, k - 1) + g[k - 1] + (if k % 18 == 0 then [NEWLINE] else [])
  }

  ghost function Tail(s: seq<Octet>): (t: seq<Octet>)
    ensures |t| == if |s| % 3 == 0 then 0 else 4
  {
    if |s| % 3 == 0 then [] else LastQuad(s[|s| / 3 * 3..])
  }

  /** The line feed at the end, unless there is one already. */
  ghost function End(s: seq<Octet>): (t: seq<Octet>)
    ensures |t| <= 1
  {
    if |s| % 3 != 0 || |s| / 3 % 18 != 0 then [NEWLINE] else []
  }

  ghost function Text(s: seq<Octet>): seq<Octet> {
    Lines(Groups(s), |s| / 3) + Tail(s) + End(s)
  }

  /** The size of the buffer that the encoder asks for. */
  function BufferSize(len: nat): (n: nat)
    ensures n >= 1
  {
    var olen := len * 4 / 3 + 4;
    olen + olen / 72 + 1
  }

  /** The text with its terminator has at most the computed size, and at most eight octets less. */
  lemma {:induction false} TextFits(s: seq<Octet>)
    ensures BufferSize(|s|) - 8 <= |Text(s)| + 1 <= BufferSize(|s|)
  {
    var len, k := |s|, |s| / 3;
    var olen := len * 4 / 3 + 4;
    assert len == 3 * k + len % 3;
    assert olen >= 4 * k + 4 + (if len % 3 == 0 then 0 else 1);
    assert |Lines(Groups(s), k)| == 4 * k + k / 18;
    assert olen / 72 >= (4 * k + 4) / 72 == (k + 1) / 18;
  }

  /** What the loop of base64_encode has stored after `k` groups. */
  ghost predicate Stored(g: seq<seq<Octet>>, k: nat, text: seq<Octet>, lineLen: nat) {
    k <= |g| && AllQuads(g) && text == Lines(g, k) && lineLen == 4 * (k % 18)
  }

  lemma {:induction false} StoredMore(g: seq<seq<Octet>>, k: nat, text: seq<Octet>, lineLen: nat)
    requires Stored(g, k, text, lineLen) && k < |g|
    ensures lineLen + 4 >= 72 <==> (k + 1) % 18 == 0
    ensures if lineLen + 4 >= 72 then Stored(g, k + 1, text + g[k] + [NEWLINE], 0)
            else Stored(g, k + 1, text + g[k], lineLen + 4)
  {
    var more := text + g[k];
    assert more + [] == more;
  }

  /** Every 73rd character is a line feed. */
  lemma {:induction false} LineFeeds(g: seq<seq<Octet>>, k: nat, i: nat)
    requires k <= |g| && AllQuads(g) && i < |Lines(g, k)| && i % 73 == 72
    ensures Lines(g, k)[i] == NEWLINE
  {
    var before := Lines(g, k - 1);
    if i < |before| {
      LineFeeds(g, k - 1, i);
    } else {
      assert |before| == 4 * (k - 1) + (k - 1) / 18;
      LineEnd(k, i);
    }
  }

  /** Where a group reaches a 73rd character, that is the line feed behind it. */
  lemma {:induction false} LineEnd(k: nat, i: nat)
    requires k > 0 && 4 * (k - 1) + (k - 1) / 18 <= i < 4 * k + k / 18 && i % 73 == 72
    ensures k % 18 == 0 && i == 4 * k + k / 18 - 1
  {
    var q, r := (k - 1) / 18, (k - 1) % 18;
    assert k - 1 == 18 * q + r;
    assert 73 * q + 4 * r <= i;
    assert i < 73 * q + 4 * r + 4 + (if r == 17 then 1 else 0);
    assert i == 73 * (i / 73) + 72;
    assert i / 73 == q;
  }

  /** No line is longer than 72 characters: among any 73 in a row there is a line feed. */
  lemma {:induction false} LinesAreShort(s: seq<Octet>, i: nat) returns (j: nat)
    requires i + 73 <= |Text(s)|
    ensures i <= j < i + 73 && Text(s)[j] == NEWLINE
  {
    j := i + (72 - i % 73);
    assert j % 73 == 72;
    if j < |Lines(Groups(s), |s| / 3)| {
      LineFeeds(Groups(s), |s| / 3, j);
      PrefixAt(Lines(Groups(s), |s| / 3), Tail(s), End(s), j);
    } else {
      LastLine(s, j);
    }
  }

  lemma {:induction false} PrefixAt(a: seq<Octet>, b: seq<Octet>, c: seq<Octet>, j: nat)
    requires j < |a|
    ensures (a + b + c)[j] == a[j]
  {
  }

  /** Behind the full groups, only the last character can be at the place of a line feed, and it is one. */
  lemma {:induction false} LastLine(s: seq<Octet>, j: nat)
    requires |Lines(Groups(s), |s| / 3)| <= j < |Text(s)| && j % 73 == 72
    ensures Text(s)[j] == NEWLINE
  {
    var k := |s| / 3;
    var q, r := k / 18, k % 18;
    assert k == 18 * q + r;
    assert |Lines(Groups(s), k)| == 73 * q + 4 * r;
    assert j == 73 * (j / 73) + 72;
    assert |Text(s)| <= 73 * q + 4 * r + 5;
    assert j / 73 == q && r == 17;
  }

  // ----- decoding -----

  /** The decoder's loop: the characters of the current group, the last full group, and the octets so far. */
  datatype Dec = Dec(group: seq<Octet>, last: seq<Octet>, out: seq<Octet>)

  const START := Dec([], [], [])

  /** Three octets from four values of six bits; what does not fit eight bits is cut off. */
  function Unite(a: nat, b: nat, c: nat, d: nat): (o: seq<Octet>)
    ensures |o| == 3
  {
    [(a * 4 + b / 16) % 256, (b * 16 + c / 4) % 256, (c * 64 + d) % 256]
  }

  function Octets(g: seq<Octet>): (o: seq<Octet>)
    requires |g| == 4
    ensures |o| == 3
  {
    Unite(Value(g[0]), Value(g[1]), Value(g[2]), Value(g[3]))
  }

  ghost predicate DecOk(d: Dec) {
    && |d.group| < 4 && (forall i :: 0 <= i < |d.group| ==> Value(d.group[i]) < 64)
    && |d.out| % 3 == 0 && (if d.out == [] then d.last == [] else |d.last| == 4)
  }

  ghost function Step(d: Dec, c: Octet): (e: Dec)
    requires DecOk(d)
    ensures DecOk(e)
  {
    if Value(c) == INVALID then d
    else if |d.group| < 3 then d.(group := d.group + [c])
    else Dec([], d.group + [c], d.out + Octets(d.group + [c]))
  }

  ghost function Run(d: Dec, t: seq<Octet>, n: nat): (e: Dec)
    requires DecOk(d) && n <= |t|
    ensures DecOk(e)
  {
    if n == 0 then d else Step(Run(d, t, n - 1), t[n - 1])
  }

  /** The padding takes one or two octets off the last group. */
  ghost function Trimmed(d: Dec): seq<Octet>
    requires DecOk(d)
  {
    if d.out == [] then []
    else if d.last[2] == PAD then d.out[..|d.out| - 2]
    else if d.last[3] == PAD then d.out[..|d.out| - 1]
    else d.out
  }

  /** The result of decoding a text: none if characters are missing from the last group, and none for the
      empty text, because the heap does not hand out zero bytes. */
  ghost function Decoded(t: seq<Octet>): Option<seq<Octet>> {
    var d := Run(START, t, |t|);
    if d.group != [] || d.out == [] then None else Some(Trimmed(d))
  }

  // ----- round trip -----

  lemma {:induction false} RunPrefix(d: Dec, t: seq<Octet>, u: seq<Octet>, n: nat)
    requires DecOk(d) && n <= |t|
    ensures Run(d, t + u, n) == Run(d, t, n)
  {
    if n > 0 {
      RunPrefix(d, t, u, n - 1);
      assert (t + u)[n - 1] == t[n - 1];
    }
  }

  lemma {:induction false} RunSuffix(d: Dec, t: seq<Octet>, u: seq<Octet>, n: nat)
    requires DecOk(d) && n <= |u|
    ensures Run(d, t + u, |t| + n) == Run(Run(d, t, |t|), u, n)
  {
    if n == 0 {
      RunPrefix(d, t, u, |t|);
    } else {
      RunSuffix(d, t, u, n - 1);
      assert (t + u)[|t| + n - 1] == u[n - 1];
    }
  }

  lemma {:induction false} RunStep(d: Dec, t: seq<Octet>, n: nat)
    requires DecOk(d) && n < |t|
    ensures Run(d, t, n + 1) == Step(Run(d, t, n), t[n])
    ensures n == 0 ==> Run(d, t, n) == d
  {
  }

  lemma {:induction false} GroupSteps(d: Dec, w: Octet, x: Octet, y: Octet, z: Octet)
    requires DecOk(d) && d.group == [] && Value(w) < 64 && Value(x) < 64 && Value(y) < 64 && Value(z) < 64
    ensures var g := [w, x, y, z]; Step(Step(Step(Step(d, w), x), y), z) == Dec([], g, d.out + Octets(g))
  {
    assert Step(d, w) == Dec([w], d.last, d.out);
    assert Step(Dec([w], d.last, d.out), x) == Dec([w, x], d.last, d.out);
    assert Step(Dec([w, x], d.last, d.out), y) == Dec([w, x, y], d.last, d.out);
    assert [w, x, y] + [z] == [w, x, y, z];
  }

  /** A group that starts afresh is decoded as a whole. */
  lemma {:induction false} RunGroup(d: Dec, g: seq<Octet>)
    requires DecOk(d) && d.group == [] && |g| == 4
    requires Value(g[0]) < 64 && Value(g[1]) < 64 && Value(g[2]) < 64 && Value(g[3]) < 64
    ensures Run(d, g, 4) == Dec([], g, d.out + Octets(g))
  {
    RunStep(d, g, 0);
    RunStep(d, g, 1);
    RunStep(d, g, 2);
    RunStep(d, g, 3);
    GroupSteps(d, g[0], g[1], g[2], g[3]);
    assert [g[0], g[1], g[2], g[3]] == g;
  }

  /** A group that stands for the octets `o`, whatever was decoded before. */
  ghost predicate StandsFor(g: seq<Octet>, o: seq<Octet>) {
    |g| == 4 && |o| == 3 && forall d {:trigger Run(d, g, 4)} :: DecOk(d) && d.group == [] ==> Run(d, g, 4) == Dec([], g, d.out + o)
  }

  lemma {:induction false} CharsStandFor(w: nat, x: nat, y: nat, z: nat)
    requires w < 64 && x < 64 && y < 64 && z < 64
    ensures StandsFor([Char(w), Char(x), Char(y), Char(z)], Unite(w, x, y, z))
    ensures y == 0 ==> StandsFor([Char(w), Char(x), PAD, PAD], Unite(w, x, 0, 0))
    ensures z == 0 ==> StandsFor([Char(w), Char(x), Char(y), PAD], Unite(w, x, y, 0))
  {
    ValueOfChar(w);
    ValueOfChar(x);
    ValueOfChar(y);
    ValueOfChar(z);
    ValuesStandFor(Char(w), Char(x), Char(y), Char(z));
    ValuesStandFor(Char(w), Char(x), PAD, PAD);
    ValuesStandFor(Char(w), Char(x), Char(y), PAD);
  }

  lemma {:induction false} ValuesStandFor(a: Octet, b: Octet, c: Octet, e: Octet)
    requires Value(a) < 64 && Value(b) < 64 && Value(c) < 64 && Value(e) < 64
    ensures StandsFor([a, b, c, e], Unite(Value(a), Value(b), Value(c), Value(e)))
  {
    var g := [a, b, c, e];
    forall d | DecOk(d) && d.group == [] ensures Run(d, g, 4) == Dec([], g, d.out + Unite(Value(a), Value(b), Value(c), Value(e))) {
      RunGroup(d, g);
    }
  }

  lemma {:induction false} FirstOctet(a: Octet, b: Octet)
    ensures (a / 4 * 4 + (a % 4 * 16 + b / 16) / 16) % 256 == a
  {
  }

  lemma {:induction false} SecondOctet(a: Octet, b: Octet, c: Octet)
    ensures ((a % 4 * 16 + b / 16) * 16 + (b % 16 * 4 + c / 64) / 4) % 256 == b
  {
    assert (b % 16 * 4 + c / 64) / 4 == b % 16;
    assert (a % 4 * 16 + b / 16) * 16 + b % 16 == a % 4 * 256 + b;
  }

  lemma {:induction false} ThirdOctet(b: Octet, c: Octet)
    ensures ((b % 16 * 4 + c / 64) * 64 + c % 64) % 256 == c
  {
    assert (b % 16 * 4 + c / 64) * 64 + c % 64 == b % 16 * 256 + c;
  }

  lemma {:induction false} QuadStandsFor(a: Octet, b: Octet, c: Octet)
    ensures StandsFor(Quad(a, b, c), [a, b, c]) && Quad(a, b, c)[2] != PAD && Quad(a, b, c)[3] != PAD
  {
    CharsStandFor(a / 4, a % 4 * 16 + b / 16, b % 16 * 4 + c / 64, c % 64);
    FirstOctet(a, b);
    SecondOctet(a, b, c);
    ThirdOctet(b, c);
  }

  /** The last group stands for its octets and one or two zeros, which its padding takes off. */
  lemma {:induction false} LastQuadStandsFor(o: seq<Octet>)
    requires |o| == 1 || |o| == 2
    ensures StandsFor(LastQuad(o), o + if |o| == 1 then [0, 0] else [0])
    ensures LastQuad(o)[3] == PAD && (LastQuad(o)[2] == PAD <==> |o| == 1)
  {
    if |o| == 1 {
      OneStandsFor(o[0]);
      assert o == [o[0]];
    } else {
      TwoStandFor(o[0], o[1]);
      assert o == [o[0], o[1]];
    }
  }

  lemma {:induction false} OneStandsFor(a: Octet)
    ensures StandsFor([Char(a / 4), Char(a % 4 * 16), PAD, PAD], [a, 0, 0])
  {
    FirstOctet(a, 0);
    CharsStandFor(a / 4, a % 4 * 16, 0, 0);
    SecondOctet(a, 0, 0);
    assert Unite(a / 4, a % 4 * 16, 0, 0) == [a, 0, 0];
  }

  lemma {:induction false} TwoStandFor(a: Octet, b: Octet)
    ensures StandsFor([Char(a / 4), Char(a % 4 * 16 + b / 16), Char(b % 16 * 4), PAD], [a, b, 0])
  {
    FirstOctet(a, b);
    CharsStandFor(a / 4, a % 4 * 16 + b / 16, b % 16 * 4, 0);
    SecondOctet(a, b, 0);
    ThirdOctet(b, 0);
    assert Unite(a / 4, a % 4 * 16 + b / 16, b % 16 * 4, 0) == [a, b, 0];
  }

  ghost predicate GroupOk(g: seq<Octet>, s: seq<Octet>, j: nat)
    requires 3 * j + 3 <= |s|
  {
    StandsFor(g, s[3 * j..3 * j + 3]) && g[2] != PAD && g[3] != PAD
  }

  ghost predicate GroupsOk(g: seq<seq<Octet>>, s: seq<Octet>) {
    |g| == |s| / 3 && AllQuads(g) && forall j {:trigger GroupOk(g[j], s, j)} :: 0 <= j < |g| ==> GroupOk(g[j], s, j)
  }

  lemma {:induction false} GroupsAreOk(s: seq<Octet>)
    ensures GroupsOk(Groups(s), s)
  {
    var g := Groups(s);
    forall j | 0 <= j < |g| ensures GroupOk(g[j], s, j) {
      QuadStandsFor(s[3 * j], s[3 * j + 1], s[3 * j + 2]);
      assert s[3 * j..3 * j + 3] == [s[3 * j], s[3 * j + 1], s[3 * j + 2]];
    }
  }

  lemma {:induction false} NothingMore(t: seq<Octet>, nl: seq<Octet>)
    requires nl == [] || nl == [NEWLINE]
    ensures Run(START, t + nl, |t + nl|) == Run(START, t, |t|)
  {
    RunSuffix(START, t, nl, |nl|);
    LineFeedIgnored(Run(START, t, |t|), nl);
  }

  lemma {:induction false} NothingBehind(t: seq<Octet>, tail: seq<Octet>, nl: seq<Octet>)
    requires tail == [] && (nl == [] || nl == [NEWLINE])
    ensures Run(START, t + tail + nl, |t + tail + nl|) == Run(START, t, |t|)
  {
    assert t + tail == t;
    NothingMore(t, nl);
  }

  /** A group behind a text that ends with a full group, and perhaps a line feed behind it. */
  lemma {:induction false} GroupRuns(t: seq<Octet>, q: seq<Octet>, nl: seq<Octet>, o: seq<Octet>)
    requires Run(START, t, |t|).group == [] && StandsFor(q, o) && (nl == [] || nl == [NEWLINE])
    ensures Run(START, t + q + nl, |t + q + nl|) == Dec([], q, Run(START, t, |t|).out + o)
  {
    var d, tq := Run(START, t, |t|), t + q;
    assert Run(d, q, 4) == Dec([], q, d.out + o);
    RunSuffix(START, t, q, 4);
    NothingMore(tq, nl);
  }

  /** The text is decoded to `o`, and ends with a full group. */
  ghost predicate DecodesTo(t: seq<Octet>, o: seq<Octet>) {
    var d := Run(START, t, |t|);
    d.group == [] && d.out == o && (o != [] ==> d.last[2] != PAD && d.last[3] != PAD)
  }

  lemma {:induction false} GroupAdded(t: seq<Octet>, s: seq<Octet>, q: seq<Octet>, nl: seq<Octet>, o: seq<Octet>)
    requires DecodesTo(t, s) && StandsFor(q, o) && q[2] != PAD && q[3] != PAD && (nl == [] || nl == [NEWLINE])
    ensures DecodesTo(t + q + nl, s + o)
  {
    GroupRuns(t, q, nl, o);
  }

  /** The text of the first `k` groups is decoded to what they stand for. */
  ghost predicate LinesDecoded(g: seq<seq<Octet>>, s: seq<Octet>, k: nat)
    requires k <= |g| && AllQuads(g) && 3 * k <= |s|
  {
    DecodesTo(Lines(g, k), s[..3 * k])
  }

  /** One more line part: a group and perhaps a line feed. */
  lemma {:induction false} LineAdded(g: seq<seq<Octet>>, s: seq<Octet>, k: nat)
    requires GroupsOk(g, s) && k < |g| && 3 * k + 3 <= |s| && LinesDecoded(g, s, k)
    ensures LinesDecoded(g, s, k + 1)
  {
    var t, o, nl := Lines(g, k), s[3 * k..3 * k + 3], if (k + 1) % 18 == 0 then [NEWLINE] else [];
    assert GroupOk(g[k], s, k);
    GroupAdded(t, s[..3 * k], g[k], nl, o);
    SplitAt(s, 3 * k, 3 * k + 3);
    assert Lines(g, k + 1) == t + g[k] + nl;
  }

  lemma {:induction false} NothingDecoded(g: seq<seq<Octet>>, s: seq<Octet>)
    requires AllQuads(g)
    ensures LinesDecoded(g, s, 0)
  {
    assert s[..0] == [];
  }

  /** Decoding the lines gives back what the groups stand for. */
  lemma {:induction false} LinesDecode(g: seq<seq<Octet>>, s: seq<Octet>, k: nat)
    requires GroupsOk(g, s) && k <= |g| && 3 * k <= |s|
    ensures LinesDecoded(g, s, k)
  {
    NothingDecoded(g, s);
    for j := 0 to k
      invariant LinesDecoded(g, s, j)
    {
      LineAdded(g, s, j);
    }
  }

  lemma {:induction false} SplitAt(s: seq<Octet>, a: nat, b: nat)
    requires a <= b <= |s|
    ensures s[..b] == s[..a] + s[a..b]
  {
  }

  lemma {:induction false} LineFeedIgnored(d: Dec, nl: seq<Octet>)
    requires DecOk(d) && (nl == [] || nl == [NEWLINE])
    ensures Run(d, nl, |nl|) == d
  {
    NoNewline(64);
    if nl == [NEWLINE] {
      assert Run(d, nl, 0) == d;
    }
  }

  /** Decoding the encoding gives the original back, except that the empty input is not decoded. */
  lemma {:induction false} RoundTrip(s: seq<Octet>)
    ensures Decoded(Text(s)) == Some(s) <==> s != []
  {
    var k := |s| / 3;
    var lines := Lines(Groups(s), k);
    GroupsAreOk(s);
    LinesDecode(Groups(s), s, k);
    if |s| % 3 != 0 {
      var o := s[3 * k..];
      LastQuadStandsFor(o);
      GroupRuns(lines, Tail(s), End(s), o + if |o| == 1 then [0, 0] else [0]);
      PaddingTaken(s[..3 * k], o, Tail(s));
      assert s[..3 * k] + o == s;
    } else {
      NothingBehind(lines, Tail(s), End(s));
      assert s[..3 * k] == s;
    }
  }

  lemma {:induction false} PaddingTaken(s: seq<Octet>, o: seq<Octet>, q: seq<Octet>)
    requires |s| % 3 == 0 && (|o| == 1 || |o| == 2) && |q| == 4 && q[3] == PAD && (q[2] == PAD <==> |o| == 1)
    ensures var d := Dec([], q, s + (o + if |o| == 1 then [0, 0] else [0])); DecOk(d) && d.out != [] && Trimmed(d) == s + o
  {
  }

  // ----- what the decoder counts and stores -----

  /** How many of the first `n` characters count. */
  ghost function Counted(t: seq<Octet>, n: nat): (k: nat)
    requires n <= |t|
    ensures k <= n
  {
    if n == 0 then 0 else Counted(t, n - 1) + if Value(t[n - 1]) == INVALID then 0 else 1
  }

  /** The decoder has stored three octets for each four characters that count. */
  lemma {:induction false} RunCounts(t: seq<Octet>, n: nat)
    requires n <= |t|
    ensures var d := Run(START, t, n); 4 * (|d.out| / 3) + |d.group| == Counted(t, n)
  {
    if n > 0 {
      RunCounts(t, n - 1);
    }
  }

  /** There is a result exactly when a positive multiple of four characters count. */
  lemma {:induction false} DecodedExists(src: seq<Octet>)
    ensures Decoded(src).Some? <==> Counted(src, |src|) % 4 == 0 && Counted(src, |src|) > 0
  {
    var d := Run(START, src, |src|);
    RunCounts(src, |src|);
    var groups, rest, count := |d.out| / 3, |d.group|, Counted(src, |src|);
    assert d.out == [] <==> groups == 0;
    if count % 4 == 0 && count > 0 {
      WholeGroups(groups, rest, count);
    }
  }

  /** The decoder's variables agree with the decoded prefix. */
  ghost predicate Holding(src: seq<Octet>, i: nat, text: seq<Octet>, chars: seq<Octet>, block: seq<Octet>, last: seq<Octet>) {
    && i <= |src| && Run(START, src, i) == Dec(chars, last, text)
    && |block| == |chars| && forall k :: 0 <= k < |block| ==> block[k] == Value(chars[k])
  }

  lemma {:induction false} HoldingStep(src: seq<Octet>, i: nat, text: seq<Octet>, chars: seq<Octet>, block: seq<Octet>, last: seq<Octet>)
    requires i < |src| && Holding(src, i, text, chars, block, last)
    ensures var v := Value(src[i]); var cs, bs := chars + [src[i]], block + [v];
      if v == INVALID then Holding(src, i + 1, text, chars, block, last)
      else if |bs| < 4 then Holding(src, i + 1, text, cs, bs, last)
      else |bs| == 4 && Holding(src, i + 1, text + Unite(bs[0], bs[1], bs[2], bs[3]), [], [], cs)
  {
    RunCounts(src, i + 1);
    var d := Run(START, src, i);
    assert Run(START, src, i + 1) == Step(d, src[i]);
  }

  lemma {:induction false} HoldingEnds(src: seq<Octet>, text: seq<Octet>, chars: seq<Octet>, block: seq<Octet>, last: seq<Octet>)
    requires Holding(src, |src|, text, chars, block, last) && Counted(src, |src|) % 4 == 0 && Counted(src, |src|) > 0
    ensures chars == [] && block == [] && text != [] && |last| == 4 && 4 * |text| == 3 * Counted(src, |src|)
  {
    RunCounts(src, |src|);
    WholeGroups(|text| / 3, |chars|, Counted(src, |src|));
  }

  lemma {:induction false} WholeGroups(groups: nat, rest: nat, count: nat)
    requires 4 * groups + rest == count && rest < 4 && count % 4 == 0 && count > 0
    ensures rest == 0 && groups > 0
  {
  }

  /** What the padding of the last group takes off. */
  function Padding(last: seq<Octet>): nat
    requires |last| == 4
  {
    if last[2] == PAD then 2 else if last[3] == PAD then 1 else 0
  }

  lemma {:induction false} TrimmedIs(src: seq<Octet>, text: seq<Octet>, last: seq<Octet>)
    requires Holding(src, |src|, text, [], [], last) && text != [] && |last| == 4
    ensures Padding(last) <= |text| && Decoded(src) == Some(text[..|text| - Padding(last)])
  {
    assert text[..|text|] == text;
  }
}
