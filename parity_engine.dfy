/** The even-parity engine of the parity-check page: validation of a binary
    string, the ones count, the even-parity bit and the odd-count error test,
    together with what they guarantee about single and double bit flips.
    Strings are sequences of characters, as in the page, where the data and
    the parity bit are both held as strings.
 */
module ParityEngine {

  /** One character of a binary string. */
  predicate IsBit(c: char) {
    c == '0' || c == '1'
  }

  /** The test `/^[01]*$/`: every character is '0' or '1'; the empty string passes. */
  predicate IsBinary(s: string) {
    forall i :: 0 <= i < |s| ==> IsBit(s[i])
  }

  /** The number of '1' characters in `s` (splitting into characters and
      keeping those equal to '1'). */
  function CountOnes(s: string): nat
  {
    if s == [] then 0
    else (if s[0] == '1' then 1 else 0) + CountOnes(s[1..])
  }

  /** The even-parity bit of `s`: '0' when `s` holds an even number of ones,
      '1' when it holds an odd number. */
  function ParityOf(s: string): (p: char)
    ensures IsBit(p)
    ensures (CountOnes(s) + CountOnes([p])) % 2 == 0
  {
    if CountOnes(s) % 2 == 0 then '0' else '1'
  }

  /** The verdict of the error check: the data followed by the parity string
      holds an odd number of ones. */
  function HasError(data: string, parity: string): (flagged: bool)
    ensures flagged <==> (CountOnes(data) + CountOnes(parity)) % 2 == 1
  {
    CountOnesAppend(data, parity);
    CountOnes(data + parity) % 2 != 0
  }

  /** `s` with the bit at position `i` inverted: a '1' becomes '0', any other
      character becomes '1'. */
  function Flip(s: string, i: nat): (r: string)
    requires i < |s|
    ensures |r| == |s| && r[i] != s[i]
    ensures forall j :: 0 <= j < |s| && j != i ==> r[j] == s[j]
    ensures IsBinary(s) ==> IsBinary(r)
  {
    s[i := if s[i] == '1' then '0' else '1']
  }

  /** The number of positions at which `a` and `b` differ (Hamming distance). */
  function Distance(a: string, b: string): nat
    requires |a| == |b|
  {
    if a == [] then 0
    else (if a[0] != b[0] then 1 else 0) + Distance(a[1..], b[1..])
  }

  // ---------------------------------------------------------------------------
  // The ones count

  /** The ones count is the multiplicity of '1' in the string's multiset. */
  lemma {:induction false} CountOnesIsMultiplicity(s: string)
    ensures CountOnes(s) == multiset(s)['1']
  {
    if s != [] {
      CountOnesIsMultiplicity(s[1..]);
      assert s == [s[0]] + s[1..];
      assert multiset(s) == multiset([s[0]]) + multiset(s[1..]);
    }
  }

  /** A string holds at most as many ones as characters, and a binary string
      holds exactly as many as its characters that are not '0'. */
  lemma {:induction false} CountOnesBounds(s: string)
    ensures CountOnes(s) <= |s|
    ensures IsBinary(s) ==> CountOnes(s) + multiset(s)['0'] == |s|
  {
    if s != [] {
      CountOnesBounds(s[1..]);
      assert s == [s[0]] + s[1..];
      assert multiset(s) == multiset([s[0]]) + multiset(s[1..]);
      assert IsBinary(s) ==> IsBit(s[0]) && IsBinary(s[1..]);
    }
  }

  /** Counting ones distributes over concatenation. */
  lemma {:induction false} CountOnesAppend(a: string, b: string)
    ensures CountOnes(a + b) == CountOnes(a) + CountOnes(b)
  {
    if a == [] {
      assert a + b == b;
    } else {
      assert (a + b)[0] == a[0];
      assert (a + b)[1..] == a[1..] + b;
      CountOnesAppend(a[1..], b);
    }
  }

  /** The regular-expression test agrees with counting: a string is binary
      exactly when its '0' and '1' characters make up its whole length. */
  lemma {:induction false} IsBinaryByCounts(s: string)
    ensures multiset(s)['0'] + multiset(s)['1'] <= |s|
    ensures IsBinary(s) <==> multiset(s)['0'] + multiset(s)['1'] == |s|
  {
    if s != [] {
      IsBinaryByCounts(s[1..]);
      assert s == [s[0]] + s[1..];
      assert multiset(s) == multiset([s[0]]) + multiset(s[1..]);
      assert IsBinary(s) <==> IsBit(s[0]) && IsBinary(s[1..]);
    }
  }

  /** Flipping one position changes the ones count by exactly one. */
  lemma CountOnesFlip(s: string, i: nat)
    requires i < |s|
    ensures CountOnes(Flip(s, i)) == if s[i] == '1' then CountOnes(s) - 1 else CountOnes(s) + 1
  {
    var r := Flip(s, i);
    assert s == s[..i] + [s[i]] + s[i+1..];
    assert r == s[..i] + [r[i]] + s[i+1..];
    CountOnesAppend(s[..i] + [s[i]], s[i+1..]);
    CountOnesAppend(s[..i], [s[i]]);
    CountOnesAppend(s[..i] + [r[i]], s[i+1..]);
    CountOnesAppend(s[..i], [r[i]]);
  }

  /** Two binary strings of equal length have ones counts of the same parity
      exactly when they differ at an even number of positions. */
  lemma {:induction false} CountOnesParityByDistance(a: string, b: string)
    requires |a| == |b| && IsBinary(a) && IsBinary(b)
    ensures (CountOnes(a) + Distance(a, b)) % 2 == CountOnes(b) % 2
  {
    if a != [] {
      assert IsBit(a[0]) && IsBit(b[0]);
      CountOnesParityByDistance(a[1..], b[1..]);
      var x, d, y := CountOnes(a[1..]), Distance(a[1..], b[1..]), CountOnes(b[1..]);
      var ca := if a[0] == '1' then 1 else 0;
      var cb := if b[0] == '1' then 1 else 0;
      var cd := if a[0] != b[0] then 1 else 0;
      assert CountOnes(a) == ca + x && CountOnes(b) == cb + y && Distance(a, b) == cd + d;
      assert (ca + cd) % 2 == cb % 2;
      SumParity(x + d, y, ca + cd, cb);
    }
  }

  /** A string is at distance zero from itself. */
  lemma {:induction false} DistanceToSelf(s: string)
    ensures Distance(s, s) == 0
  {
    if s != [] {
      DistanceToSelf(s[1..]);
    }
  }

  /** A flipped string differs from the original in exactly one position. */
  lemma {:induction false} DistanceOfFlip(s: string, i: nat)
    requires i < |s|
    ensures Distance(s, Flip(s, i)) == 1
  {
    if i == 0 {
      assert Flip(s, 0)[1..] == s[1..];
      DistanceToSelf(s[1..]);
    } else {
      assert Flip(s, i)[1..] == Flip(s[1..], i - 1);
      DistanceOfFlip(s[1..], i - 1);
    }
  }

  // The three arithmetic facts below are stated as lemmas rather than inline
  // asserts so that the parity proofs that use them stay stable across solver runs.

  /** Adding numbers of equal parity to numbers of equal parity keeps them equal. */
  lemma SumParity(x: nat, y: nat, u: nat, v: nat)
    requires x % 2 == y % 2 && u % 2 == v % 2
    ensures (x + u) % 2 == (y + v) % 2
  {
  }

  /** Two numbers one apart have opposite parities. */
  lemma NeighbourParity(a: nat, b: nat)
    requires a == b + 1 || b == a + 1
    ensures a % 2 == 1 <==> b % 2 == 0
  {
  }

  /** Adding `d` to an even number leaves a number of the parity of `d`. */
  lemma EvenOffsetParity(c: nat, d: nat, y: nat)
    requires c % 2 == 0 && (c + d) % 2 == y % 2
    ensures y % 2 == 1 <==> d % 2 == 1
  {
  }

  /** Flipping one position changes the parity of the ones count. */
  lemma FlipChangesParity(s: string, i: nat)
    requires i < |s|
    ensures CountOnes(Flip(s, i)) % 2 == 1 <==> CountOnes(s) % 2 == 0
  {
    CountOnesFlip(s, i);
    NeighbourParity(CountOnes(Flip(s, i)), CountOnes(s));
  }

  /** The transmitted string of binary data is binary. */
  lemma TransmittedIsBinary(data: string)
    requires IsBinary(data)
    ensures IsBinary(data + [ParityOf(data)])
  {
  }

  // ---------------------------------------------------------------------------
  // Generation

  /** After the parity bit is appended, the data holds an even number of ones. */
  lemma EvenParityAfterAppend(s: string)
    ensures CountOnes(s + [ParityOf(s)]) % 2 == 0
  {
    CountOnesAppend(s, [ParityOf(s)]);
  }

  /** The generated bit is the only bit whose appending gives even parity. */
  lemma ParityBitUnique(s: string, b: char)
    requires IsBit(b)
    ensures CountOnes(s + [b]) % 2 == 0 <==> b == ParityOf(s)
  {
    CountOnesAppend(s, [b]);
  }

  // ---------------------------------------------------------------------------
  // Detection

  /** The error check only looks at the concatenation of data and parity. */
  lemma HasErrorOfSplit(t: string, k: nat)
    requires k <= |t|
    ensures HasError(t[..k], t[k..]) <==> CountOnes(t) % 2 == 1
  {
    assert t[..k] + t[k..] == t;
  }

  /** Unmodified data with its generated parity bit is never flagged. */
  lemma NoFalsePositive(data: string)
    ensures !HasError(data, [ParityOf(data)])
  {
  }

  /** Inverting any single bit of the transmitted data-plus-parity string is
      flagged, whether it hits the data or the parity bit. */
  lemma SingleFlipDetected(data: string, i: nat)
    requires i <= |data|
    ensures var received := Flip(data + [ParityOf(data)], i);
            HasError(received[..|data|], received[|data|..])
  {
    var sent := data + [ParityOf(data)];
    var received := Flip(sent, i);
    EvenParityAfterAppend(data);
    FlipChangesParity(sent, i);
    HasErrorOfSplit(received, |data|);
  }

  /** Inverting any two distinct bits of the transmitted string goes
      unnoticed: the known blind spot of a single parity bit. */
  lemma DoubleFlipMissed(data: string, i: nat, j: nat)
    requires i <= |data| && j <= |data| && i != j
    ensures var received := Flip(Flip(data + [ParityOf(data)], i), j);
            !HasError(received[..|data|], received[|data|..])
  {
    var sent := data + [ParityOf(data)];
    var once := Flip(sent, i);
    var received := Flip(once, j);
    EvenParityAfterAppend(data);
    FlipChangesParity(sent, i);
    FlipChangesParity(once, j);
    HasErrorOfSplit(received, |data|);
  }

  /** Against a sent string of even parity, a received string of the same
      length has odd parity exactly when an odd number of bits differ. */
  lemma OddParityIffOddDistance(sent: string, received: string)
    requires |sent| == |received| && IsBinary(sent) && IsBinary(received)
    requires CountOnes(sent) % 2 == 0
    ensures CountOnes(received) % 2 == 1 <==> Distance(sent, received) % 2 == 1
  {
    CountOnesParityByDistance(sent, received);
    EvenOffsetParity(CountOnes(sent), Distance(sent, received), CountOnes(received));
  }

  /** The general statement: for binary data and any binary string received in
      its place, the check reports an error exactly when an odd number of bits
      differ from what was sent. */
  lemma DetectsExactlyOddFlips(data: string, received: string)
    requires IsBinary(data) && IsBinary(received) && |received| == |data| + 1
    ensures HasError(received[..|data|], received[|data|..])
            <==> Distance(data + [ParityOf(data)], received) % 2 == 1
  {
    TransmittedIsBinary(data);
    EvenParityAfterAppend(data);
    OddParityIffOddDistance(data + [ParityOf(data)], received);
    HasErrorOfSplit(received, |data|);
  }
}
