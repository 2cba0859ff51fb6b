/** Hashcash challenges: issue, verification, replay guard and the difficulty count
    (internal/pow/pow.go). The keyed signature and the hash are arbitrary functions. */
module ProofOfWork {
  import opened Util
  import opened Decimal

  datatype Verdict = Passed | Invalid | Expired | Replay | Unsolved

  // ----- the difficulty count -----

  function Pow2(n: nat): (p: nat)
    ensures p > 0
  {
    if n == 0 then 1 else 2 * Pow2(n - 1)
  }

  /** The big-endian integer of a byte string. */
  function BigEndian(b: Bytes): nat {
    if b == [] then 0 else 256 * BigEndian(b[..|b| - 1]) + b[|b| - 1]
  }

  lemma {:induction false} Pow2Adds(m: nat, n: nat)
    ensures Pow2(m + n) == Pow2(m) * Pow2(n)
  {
    if m != 0 {
      Pow2Adds(m - 1, n);
      assert Pow2(m + n) == 2 * (Pow2(m - 1) * Pow2(n)) == (2 * Pow2(m - 1)) * Pow2(n);
    }
  }

  lemma {:induction false} Pow2Grows(m: nat, n: nat)
    requires m <= n
    ensures 1 <= Pow2(m) <= Pow2(n)
  {
    if m < n { Pow2Grows(m, n - 1); }
    if m == n && m > 0 { Pow2Grows(m - 1, m - 1); }
  }

  lemma {:induction false} BigEndianSplit(a: Bytes, b: Bytes)
    ensures BigEndian(a + b) == BigEndian(a) * Pow2(8 * |b|) + BigEndian(b)
  {
    if b == [] {
      assert a + b == a;
    } else {
      var c := b[..|b| - 1];
      BigEndianSplit(a, c);
      assert (a + b)[..|a + b| - 1] == a + c;
      Pow2Adds(8, 8 * |c|);
      assert Pow2(8) == 256;
      assert BigEndian(a) * (256 * Pow2(8 * |c|)) == 256 * (BigEndian(a) * Pow2(8 * |c|));
    }
  }

  lemma {:induction false} BigEndianBound(b: Bytes)
    ensures BigEndian(b) < Pow2(8 * |b|)
  {
    if b != [] {
      var c := b[..|b| - 1];
      BigEndianBound(c);
      Pow2Adds(8, 8 * |c|);
      assert Pow2(8) == 256;
    }
  }

  lemma {:induction false} ZerosAreZero(b: Bytes)
    requires forall j :: 0 <= j < |b| ==> b[j] == 0
    ensures BigEndian(b) == 0
  {
    if b != [] { ZerosAreZero(b[..|b| - 1]); }
  }

  /** octet & (1 << bit) == 0 on a byte whose higher bits are clear. */
  predicate BitClear(octet: Byte, bit: nat) { (octet / Pow2(bit)) % 2 == 0 }

  lemma TopBit(octet: Byte, bit: nat)
    requires bit <= 7 && octet < Pow2(bit + 1)
    ensures BitClear(octet, bit) <==> octet < Pow2(bit)
  {
    var p := Pow2(bit);
    assert Pow2(bit + 1) == 2 * p;
    hide Pow2;
    if octet < p { QuotientZero(octet, p); } else { QuotientOne(octet, p); }
  }

  lemma QuotientZero(a: int, p: int)
    requires 0 <= a < p
    ensures a / p == 0
  {
  }

  lemma QuotientOne(a: int, p: int)
    requires 0 < p <= a < 2 * p
    ensures a / p == 1
  {
    var q := a / p;
    assert p * q == a - a % p;
    assert q >= 2 ==> p * q >= 2 * p;
    assert q <= 0 ==> p * q <= 0;
  }

  /** k leading zero bits, said of the number: it fits in the remaining bits. */
  ghost predicate ZeroPrefix(b: Bytes, k: nat)
    requires k <= 8 * |b|
  {
    BigEndian(b) < Pow2(8 * |b| - k)
  }

  lemma ScaledRange(x: nat, lo: nat, hi: nat, p: nat, r: nat)
    requires lo <= x < hi && r < p
    ensures lo * p <= x * p + r < hi * p
  {
    assert (x + 1) * p == x * p + p;
  }

  /** Where a number lies whose first i bytes are zero and whose next byte has its top bit at bit. */
  lemma FirstByteRange(b: Bytes, i: nat, bit: nat)
    requires i < |b| && (forall j :: 0 <= j < i ==> b[j] == 0)
    requires Pow2(bit) <= b[i] < Pow2(bit + 1)
    ensures Pow2(bit + 8 * (|b| - i - 1)) <= BigEndian(b) < Pow2(bit + 1 + 8 * (|b| - i - 1))
  {
    var rest := b[i + 1..];
    var m := 8 * |rest|;
    assert b == b[..i] + ([b[i]] + rest);
    BigEndianSplit(b[..i], [b[i]] + rest);
    ZerosAreZero(b[..i]);
    BigEndianSplit([b[i]], rest);
    assert BigEndian([b[i]]) == b[i] by { assert [b[i]][..0] == []; }
    BigEndianBound(rest);
    Pow2Adds(bit, m);
    Pow2Adds(bit + 1, m);
    ScaledRange(b[i], Pow2(bit), Pow2(bit + 1), Pow2(m), BigEndian(rest));
  }

  lemma PrefixEnds(b: Bytes, i: nat, bit: nat, k: nat)
    requires i < |b| && (forall j :: 0 <= j < i ==> b[j] == 0) && bit <= 7
    requires Pow2(bit) <= b[i] < Pow2(bit + 1) && k <= 8 * |b|
    ensures ZeroPrefix(b, k) <==> k <= 8 * i + 7 - bit
  {
    FirstByteRange(b, i, bit);
    var m := 8 * (|b| - i - 1);
    var e := 8 * |b| - k;
    if e <= bit + m { Pow2Grows(e, bit + m); } else { Pow2Grows(bit + 1 + m, e); }
  }

  lemma AllZeroPrefix(b: Bytes, k: nat)
    requires (forall j :: 0 <= j < |b| ==> b[j] == 0) && k <= 8 * |b|
    ensures ZeroPrefix(b, k)
  {
    ZerosAreZero(b);
    Pow2Grows(0, 8 * |b| - k);
  }

  /** Counts the leading zero bits: at least k of them iff the number is below 2^(8*len - k). */
  method LeadingZeroBits(b: Bytes) returns (count: nat)
    ensures count <= 8 * |b|
    ensures forall k: nat :: k <= 8 * |b| ==> (count >= k <==> ZeroPrefix(b, k))
  {
    count := 0;
    var i := 0;
    while i < |b|
      invariant 0 <= i <= |b| && count == 8 * i
      invariant forall j :: 0 <= j < i ==> b[j] == 0
    {
      var octet := b[i];
      if octet == 0 {
        count := count + 8;
        i := i + 1;
        continue;
      }
      var bit := 7;
      assert Pow2(8) == 256;
      while bit >= 0
        invariant -1 <= bit <= 7 && count == 8 * i + 7 - bit && octet < Pow2(bit + 1)
      {
        TopBit(octet, bit);
        if BitClear(octet, bit) {
          count := count + 1;
          bit := bit - 1;
        } else {
          forall k: nat | k <= 8 * |b| ensures count >= k <==> ZeroPrefix(b, k) { PrefixEnds(b, i, bit, k); }
          return count;
        }
      }
      assert false;
    }
    forall k: nat | k <= 8 * |b| ensures count >= k <==> ZeroPrefix(b, k) { AllZeroPrefix(b, k); }
  }

  // ----- challenges -----

  function Split(s: string): (parts: seq<string>)
    ensures parts != []
  {
    if s == [] then [""]
    else
      var rest := Split(s[1..]);
      if s[0] == '.' then [""] + rest else [[s[0]] + rest[0]] + rest[1..]
  }

  /** What the checks before the replay guard make of a challenge at a clock reading (seconds). */
  datatype Ticket = Rejected(why: Verdict) | Admitted(ts: int, bits: int)

  function TtlSeconds(ttl: int): int { ttl / SECOND }

  function Examine(sign: string -> string, ttl: int, challenge: string, now: int): Ticket {
    var parts := Split(challenge);
    if |parts| != 4 then Rejected(Invalid)
    else if parts[3] != sign(parts[0] + "." + parts[1] + "." + parts[2]) then Rejected(Invalid)
    else if Atoi(parts[1]).None? then Rejected(Invalid)
    else if now - Atoi(parts[1]).value > TtlSeconds(ttl) then Rejected(Expired)
    else if Atoi(parts[2]).None? || Atoi(parts[2]).value <= 0 then Rejected(Invalid)
    else Admitted(Atoi(parts[1]).value, Atoi(parts[2]).value)
  }

  function Issued(sign: string -> string, nonce: string, now: nat, bits: nat): string {
    var payload := nonce + "." + Itoa(now) + "." + Itoa(bits);
    payload + "." + sign(payload)
  }

  predicate NoDot(s: string) { forall i :: 0 <= i < |s| ==> s[i] != '.' }

  lemma {:induction false} SplitAtDot(a: string, b: string)
    requires NoDot(a)
    ensures Split(a + "." + b) == [a] + Split(b)
  {
    var s := a + "." + b;
    if a == [] {
      assert s[1..] == b;
    } else {
      SplitAtDot(a[1..], b);
      assert s[1..] == a[1..] + "." + b;
      assert [a[0]] + a[1..] == a;
    }
  }

  lemma {:induction false} SplitPlain(a: string)
    requires NoDot(a)
    ensures Split(a) == [a]
  {
    if a != [] {
      SplitPlain(a[1..]);
      assert [a[0]] + a[1..] == a;
    }
  }

  lemma SplitFour(a: string, b: string, c: string, d: string)
    requires NoDot(a) && NoDot(b) && NoDot(c) && NoDot(d)
    ensures Split(a + "." + b + "." + c + "." + d) == [a, b, c, d]
  {
    hide Split, NoDot;
    SplitPlain(d);
    SplitAtDot(c, d);
    SplitAtDot(b, c + "." + d);
    SplitAtDot(a, b + "." + (c + "." + d));
    var tail := c + "." + d;
    assert a + "." + b + "." + c + "." + d == a + "." + b + "." + tail;
    assert a + "." + b + "." + tail == a + "." + (b + "." + tail);
  }

  /** Parts with dots between them. */
  function Dotted(parts: seq<string>): string {
    if parts == [] then "" else if |parts| == 1 then parts[0] else parts[0] + "." + Dotted(parts[1..])
  }

  /** Splitting is undone by putting the dots back, and its parts have none. */
  lemma {:induction false} SplitDotted(s: string)
    ensures Dotted(Split(s)) == s && forall i :: 0 <= i < |Split(s)| ==> NoDot(Split(s)[i])
  {
    if s != [] {
      SplitDotted(s[1..]);
      var rest := Split(s[1..]);
      assert s == [s[0]] + s[1..];
      if s[0] == '.' {
        assert ([""] + rest)[1..] == rest;
      } else {
        assert ([[s[0]] + rest[0]] + rest[1..])[1..] == rest[1..];
        if |rest| > 1 {
          var tail := Dotted(rest[1..]);
          assert [s[0]] + (rest[0] + "." + tail) == [s[0]] + rest[0] + "." + tail;
        }
      }
    }
  }

  /** c is a nonce, a time and a difficulty, dotted together and followed by their signature. */
  ghost predicate SignedBy(sign: string -> string, c: string, nonce: string, time: string, difficulty: string) {
    var payload := nonce + "." + time + "." + difficulty;
    && NoDot(nonce) && NoDot(time) && NoDot(difficulty) && NoDot(sign(payload))
    && c == payload + "." + sign(payload)
  }

  ghost predicate Genuine(sign: string -> string, c: string) {
    exists nonce, time, difficulty :: SignedBy(sign, c, nonce, time, difficulty)
  }

  /** A signed challenge splits into just what was signed. */
  lemma SignedSplits(sign: string -> string, c: string, nonce: string, time: string, difficulty: string)
    requires SignedBy(sign, c, nonce, time, difficulty)
    ensures Split(c) == [nonce, time, difficulty, sign(nonce + "." + time + "." + difficulty)]
  {
    SplitFour(nonce, time, difficulty, sign(nonce + "." + time + "." + difficulty));
  }

  lemma FourParts(c: string)
    requires |Split(c)| == 4
    ensures var p := Split(c); c == p[0] + "." + p[1] + "." + p[2] + "." + p[3]
    ensures forall i :: 0 <= i < 4 ==> NoDot(Split(c)[i])
  {
    var p := Split(c);
    SplitDotted(c);
    hide Split, NoDot;
    assert Dotted(p[3..]) == p[3];
    assert p[2..][1..] == p[3..] && Dotted(p[2..]) == p[2] + "." + p[3];
    assert p[1..][1..] == p[2..] && Dotted(p[1..]) == p[1] + "." + (p[2] + "." + p[3]);
    var tail := p[2] + "." + p[3];
    assert p[0] + "." + (p[1] + "." + tail) == p[0] + "." + p[1] + "." + tail;
    assert p[0] + "." + p[1] + "." + tail == p[0] + "." + p[1] + "." + p[2] + "." + p[3];
  }

  /** A challenge the key did not sign is invalid, whenever it comes. */
  lemma ForgeryIsInvalid(sign: string -> string, ttl: int, c: string, now: int)
    requires !Genuine(sign, c)
    ensures Examine(sign, ttl, c, now) == Rejected(Invalid)
  {
    var p := Split(c);
    if |p| == 4 && p[3] == sign(p[0] + "." + p[1] + "." + p[2]) {
      FourParts(c);
      assert SignedBy(sign, c, p[0], p[1], p[2]);
    }
  }

  /** A signed challenge is admitted exactly if its time is a number not longer ago than the lifetime
      and its difficulty a positive number, and the ticket carries both. */
  lemma AdmittedIff(sign: string -> string, ttl: int, c: string, now: int, nonce: string, time: string,
                    difficulty: string, ts: int, bits: int)
    requires ttl > 0 && SignedBy(sign, c, nonce, time, difficulty)
    ensures Examine(sign, ttl, c, now) == Admitted(ts, bits) <==>
      Atoi(time) == Some(ts) && Atoi(difficulty) == Some(bits) && bits > 0 && (now - ts) * SECOND <= ttl
    ensures Examine(sign, ttl, c, now) == Rejected(Expired) <==>
      Atoi(time).Some? && (now - Atoi(time).value) * SECOND > ttl
  {
    SignedSplits(sign, c, nonce, time, difficulty);
    if Atoi(time).Some? { WholeSeconds(now - Atoi(time).value, ttl); }
  }

  lemma WholeSeconds(age: int, ttl: int)
    requires ttl > 0
    ensures age > TtlSeconds(ttl) <==> age * SECOND > ttl
  {
    assert ttl == TtlSeconds(ttl) * SECOND + ttl % SECOND;
  }

  /** What a genuine challenge's parts and the solution's hash must be to pass: a number of seconds no
      longer ago than the lifetime, and as many leading zero bits as the difficulty asks for. */
  ghost predicate Earned(ttl: int, now: int, h: Bytes, time: string, difficulty: string) {
    Atoi(time).Some? && Atoi(difficulty).Some? &&
    var bits := Atoi(difficulty).value;
    && (now - Atoi(time).value) * SECOND <= ttl
    && 0 < bits <= 8 * |h| && ZeroPrefix(h, bits)
  }

  /** An issued challenge passes every check before the replay guard until it expires, and the
      ticket carries the issue time and difficulty. */
  lemma IssuedIsAdmitted(sign: string -> string, nonce: string, issued: nat, bits: nat, ttl: int, now: int)
    requires NoDot(nonce) && forall p :: NoDot(sign(p))
    requires issued <= MAX_INT64 && 0 < bits <= MAX_INT64
    ensures Examine(sign, ttl, Issued(sign, nonce, issued, bits), now) ==
      if now - issued > TtlSeconds(ttl) then Rejected(Expired) else Admitted(issued, bits)
  {
    AtoiOfItoa(issued);
    AtoiOfItoa(bits);
    var a, b := Itoa(issued), Itoa(bits);
    var sig := sign(nonce + "." + a + "." + b);
    assert NoDot(a) && NoDot(b);
    hide Split, Itoa, Atoi, NoDot;
    SplitFour(nonce, a, b, sig);
  }

  /** A challenge turned away at some time is turned away at every later one. */
  lemma RejectionIsFinal(sign: string -> string, ttl: int, challenge: string, t: int, t2: int)
    requires Examine(sign, ttl, challenge, t).Rejected? && t <= t2
    ensures Examine(sign, ttl, challenge, t2).Rejected?
  {
  }

  /** What the cleanup step keeps of the used set. */
  function Swept(used: map<string, int>, ttl: int, now: int): map<string, int> {
    map c | c in used && !(used[c] * SECOND < now * SECOND - ttl) :: used[c]
  }

  class Manager {
    const sign: string -> string
    const hash: string -> Bytes
    const ttl: int
    var used: map<string, int>

    constructor (sign: string -> string, hash: string -> Bytes, ttl: int)
      ensures used == map[] && this.sign == sign && this.hash == hash
      ensures this.ttl == if ttl <= 0 then 600 * SECOND else ttl
    {
      this.sign, this.hash, this.used := sign, hash, map[];
      this.ttl := if ttl <= 0 then 600 * SECOND else ttl;
    }

    lemma VerdictIff(challenge: string, solution: string, now: int)
      ensures !Genuine(sign, challenge) ==> Examine(sign, ttl, challenge, now) == Rejected(Invalid)
      ensures ttl > 0 ==> forall nonce, time, difficulty :: SignedBy(sign, challenge, nonce, time, difficulty) ==>
        var t := Examine(sign, ttl, challenge, now);
        var h := hash(challenge + "." + solution);
        Earned(ttl, now, h, time, difficulty) <==>
          t.Admitted? && t.bits <= 8 * |h| && ZeroPrefix(h, t.bits)
    {
      if !Genuine(sign, challenge) { ForgeryIsInvalid(sign, ttl, challenge, now); }
      var t := Examine(sign, ttl, challenge, now);
      var h := hash(challenge + "." + solution);
      forall nonce, time, difficulty | ttl > 0 && SignedBy(sign, challenge, nonce, time, difficulty)
        ensures Earned(ttl, now, h, time, difficulty) <==>
          t.Admitted? && t.bits <= 8 * |h| && ZeroPrefix(h, t.bits)
      {
        if t.Admitted? {
          AdmittedIff(sign, ttl, challenge, now, nonce, time, difficulty, t.ts, t.bits);
        }
        if Atoi(time).Some? && Atoi(difficulty).Some? {
          AdmittedIff(sign, ttl, challenge, now, nonce, time, difficulty, Atoi(time).value, Atoi(difficulty).value);
        }
      }
    }

    /** Consumes an admitted, unused challenge whether or not the solution is good; passes only
        a hash with the required number of leading zero bits. */
    method Verify(challenge: string, solution: string, now: int) returns (v: Verdict)
      modifies `used
      ensures var t := Examine(sign, ttl, challenge, now);
        && (t.Rejected? ==> v == t.why && used == old(used))
        && (t.Admitted? && challenge in old(used) ==> v == Replay && used == old(used))
        && (t.Admitted? && challenge !in old(used) ==>
            var h := hash(challenge + "." + solution);
            && used == old(used)[challenge := t.ts]
            && v == if t.bits <= 8 * |h| && ZeroPrefix(h, t.bits) then Passed else Unsolved)
      ensures !Genuine(sign, challenge) ==> v == Invalid && used == old(used)
      ensures ttl > 0 ==> forall nonce, time, difficulty :: SignedBy(sign, challenge, nonce, time, difficulty) ==>
        (v == Passed <==>
          && challenge !in old(used)
          && Earned(ttl, now, hash(challenge + "." + solution), time, difficulty))
    {
      VerdictIff(challenge, solution, now);

      var parts := Split(challenge);
      if |parts| != 4 { return Invalid; }
      var payload := parts[0] + "." + parts[1] + "." + parts[2];
      if parts[3] != sign(payload) { return Invalid; }
      var ts := Atoi(parts[1]);
      if ts.None? { return Invalid; }
      if now - ts.value > TtlSeconds(ttl) { return Expired; }
      var bits := Atoi(parts[2]);
      if bits.None? || bits.value <= 0 { return Invalid; }
      if challenge in used { return Replay; }
      used := used[challenge := ts.value];
      var sum := hash(challenge + "." + solution);
      var zeros := LeadingZeroBits(sum);
      if zeros < bits.value { return Unsolved; }
      return Passed;
    }

    method Cleanup(now: int)
      modifies `used
      ensures used == Swept(old(used), ttl, now)
      ensures forall c :: c in used <==> c in old(used) && (now - old(used)[c]) * 1_000_000_000 <= ttl
    {
      var todo := used.Keys;
      while todo != {}
        invariant todo <= used.Keys <= old(used).Keys
        invariant forall c :: c in used ==> used[c] == old(used)[c]
        invariant forall c :: c in old(used) && c !in todo ==>
          (c in used <==> !(old(used)[c] * SECOND < now * SECOND - ttl))
      {
        var c :| c in todo;
        todo := todo - {c};
        if used[c] * SECOND < now * SECOND - ttl { used := used - {c}; }
      }
    }
  }

  // ----- whole runs -----

  /** A verification reads the clock once, for the freshness check, and consumes later. */
  datatype Step = Attempt(challenge: string, checked: int, consumed: int) | Clean(at: int)

  function When(e: Step): int { if e.Attempt? then e.consumed else e.at }

  predicate Timed(es: seq<Step>, now: int)
    decreases |es|
  {
    es == [] ||
      (now <= When(es[0]) && (es[0].Attempt? ==> es[0].checked <= es[0].consumed) && Timed(es[1..], When(es[0])))
  }

  /** Whether an attempt gets past the used set. */
  predicate GetsPast(sign: string -> string, ttl: int, used: map<string, int>, e: Step) {
    e.Attempt? && Examine(sign, ttl, e.challenge, e.checked).Admitted? && e.challenge !in used
  }

  function UsedAfter(sign: string -> string, ttl: int, used: map<string, int>, e: Step): map<string, int> {
    if e.Clean? then Swept(used, ttl, e.at)
    else if GetsPast(sign, ttl, used, e) then used[e.challenge := Examine(sign, ttl, e.challenge, e.checked).ts]
    else used
  }

  function Passes(sign: string -> string, ttl: int, used: map<string, int>, es: seq<Step>, c: string): nat
    decreases |es|
  {
    if es == [] then 0
    else
      (if GetsPast(sign, ttl, used, es[0]) && es[0].challenge == c then 1 else 0)
        + Passes(sign, ttl, UsedAfter(sign, ttl, used, es[0]), es[1..], c)
  }

  /** No attempt is consumed after its challenge has expired; immediate when one clock reading
      serves for both. */
  predicate Prompt(sign: string -> string, ttl: int, es: seq<Step>, c: string) {
    forall i :: 0 <= i < |es| && es[i].Attempt? && es[i].challenge == c ==>
      Examine(sign, ttl, c, es[i].checked).Admitted? ==> Examine(sign, ttl, c, es[i].consumed).Admitted?
  }

  // ----- exactly when a challenge gets past twice -----

  /** The issue time a challenge carries. */
  function IssueTime(c: string): int {
    var parts := Split(c);
    if |parts| > 1 && Atoi(parts[1]).Some? then Atoi(parts[1]).value else 0
  }

  lemma TicketTime(sign: string -> string, ttl: int, c: string, now: int)
    ensures Examine(sign, ttl, c, now).Admitted? ==> Examine(sign, ttl, c, now).ts == IssueTime(c)
  {
  }

  /** An attempt for c that passes every check before the used set. */
  predicate Tries(sign: string -> string, ttl: int, e: Step, c: string) {
    e.Attempt? && e.challenge == c && Examine(sign, ttl, c, e.checked).Admitted?
  }

  /** A cleanup that drops c if it is in the used set. */
  predicate Drops(ttl: int, e: Step, c: string) { e.Clean? && IssueTime(c) * SECOND < e.at * SECOND - ttl }

  predicate AnyTries(sign: string -> string, ttl: int, es: seq<Step>, c: string) {
    es != [] && (Tries(sign, ttl, es[0], c) || AnyTries(sign, ttl, es[1..], c))
  }

  predicate DroppedThenTried(sign: string -> string, ttl: int, es: seq<Step>, c: string) {
    es != [] &&
    ((Drops(ttl, es[0], c) && AnyTries(sign, ttl, es[1..], c)) || DroppedThenTried(sign, ttl, es[1..], c))
  }

  predicate TriedDroppedTried(sign: string -> string, ttl: int, es: seq<Step>, c: string) {
    es != [] &&
    ((Tries(sign, ttl, es[0], c) && DroppedThenTried(sign, ttl, es[1..], c)) ||
     TriedDroppedTried(sign, ttl, es[1..], c))
  }

  /** What one step does to the entry of c. */
  lemma EntryStep(sign: string -> string, ttl: int, used: map<string, int>, e: Step, c: string)
    requires c in used ==> used[c] == IssueTime(c)
    ensures var next := UsedAfter(sign, ttl, used, e);
      && (c in next <==> if c in used then !Drops(ttl, e, c) else Tries(sign, ttl, e, c))
      && (c in next ==> next[c] == IssueTime(c))
      && (GetsPast(sign, ttl, used, e) && e.challenge == c <==> c !in used && Tries(sign, ttl, e, c))
  {
    if e.Attempt? { TicketTime(sign, ttl, e.challenge, e.checked); }
  }

  lemma {:induction false} SomeTry(sign: string -> string, ttl: int, es: seq<Step>, c: string)
    requires DroppedThenTried(sign, ttl, es, c)
    ensures AnyTries(sign, ttl, es, c)
  {
    if !AnyTries(sign, ttl, es[1..], c) { SomeTry(sign, ttl, es[1..], c); }
  }

  /** From a set without c, something gets past iff something tries; from a set with c, iff a
      cleanup drops it first. */
  lemma {:induction false} PassesIff(sign: string -> string, ttl: int, used: map<string, int>, es: seq<Step>, c: string)
    requires c in used ==> used[c] == IssueTime(c)
    ensures Passes(sign, ttl, used, es, c) >= 1 <==>
      if c in used then DroppedThenTried(sign, ttl, es, c) else AnyTries(sign, ttl, es, c)
    decreases |es|
  {
    if es != [] {
      EntryStep(sign, ttl, used, es[0], c);
      hide UsedAfter, GetsPast, Tries, Drops, IssueTime;
      PassesIff(sign, ttl, UsedAfter(sign, ttl, used, es[0]), es[1..], c);
      if DroppedThenTried(sign, ttl, es[1..], c) { SomeTry(sign, ttl, es[1..], c); }
    }
  }

  /** Exactly when a challenge gets past the used set twice: an attempt passes the checks, later a
      cleanup drops its entry, and later still another attempt passes the checks. */
  lemma {:induction false} PassesTwiceIff(sign: string -> string, ttl: int, used: map<string, int>, es: seq<Step>,
                                          c: string)
    requires c !in used
    ensures Passes(sign, ttl, used, es, c) >= 2 <==> TriedDroppedTried(sign, ttl, es, c)
    decreases |es|
  {
    if es != [] {
      var next := UsedAfter(sign, ttl, used, es[0]);
      EntryStep(sign, ttl, used, es[0], c);
      if c in next {
        PassesIff(sign, ttl, next, es[1..], c);
        if TriedDroppedTried(sign, ttl, es[1..], c) { SomeDrop(sign, ttl, es[1..], c); }
      } else {
        PassesTwiceIff(sign, ttl, next, es[1..], c);
      }
    }
  }

  lemma {:induction false} SomeDrop(sign: string -> string, ttl: int, es: seq<Step>, c: string)
    requires TriedDroppedTried(sign, ttl, es, c)
    ensures DroppedThenTried(sign, ttl, es, c)
  {
    if TriedDroppedTried(sign, ttl, es[1..], c) { SomeDrop(sign, ttl, es[1..], c); }
  }

  /** No cleanup at a time when a challenge is still accepted drops it. */
  lemma TicketNotOld(sign: string -> string, ttl: int, c: string, now: int)
    requires ttl > 0 && Examine(sign, ttl, c, now).Admitted?
    ensures !(IssueTime(c) * SECOND < now * SECOND - ttl)
  {
    TicketTime(sign, ttl, c, now);
    assert (now - IssueTime(c)) * SECOND <= TtlSeconds(ttl) * SECOND <= ttl;
  }

  /** Once a cleanup may drop c, c has expired, and no prompt attempt passes the checks. */
  lemma {:induction false} LateNeverTries(sign: string -> string, ttl: int, es: seq<Step>, c: string, now: int)
    requires ttl > 0 && Timed(es, now) && Prompt(sign, ttl, es, c) && IssueTime(c) * SECOND < now * SECOND - ttl
    ensures !AnyTries(sign, ttl, es, c)
    decreases |es|
  {
    if es != [] {
      var e, rest := es[0], es[1..];
      assert forall i :: 0 <= i < |rest| ==> rest[i] == es[i + 1];
      LateNeverTries(sign, ttl, rest, c, When(e));
      if Examine(sign, ttl, c, When(e)).Admitted? { TicketNotOld(sign, ttl, c, When(e)); }
    }
  }

  lemma {:induction false} PromptNeverDroppedThenTried(sign: string -> string, ttl: int, es: seq<Step>, c: string,
                                                       now: int)
    requires ttl > 0 && Timed(es, now) && Prompt(sign, ttl, es, c)
    ensures !DroppedThenTried(sign, ttl, es, c) && !TriedDroppedTried(sign, ttl, es, c)
    decreases |es|
  {
    if es != [] {
      var e, rest := es[0], es[1..];
      assert forall i :: 0 <= i < |rest| ==> rest[i] == es[i + 1];
      PromptNeverDroppedThenTried(sign, ttl, rest, c, When(e));
      if Drops(ttl, e, c) { LateNeverTries(sign, ttl, rest, c, When(e)); }
    }
  }

  /** Single use over whole runs, cleanups included: if no attempt is consumed after expiry, at
      most one attempt for a challenge gets past the used set. */
  lemma {:induction false} SingleUse(sign: string -> string, ttl: int, used: map<string, int>, es: seq<Step>,
                                     c: string, now: int)
    requires ttl > 0 && Timed(es, now) && Prompt(sign, ttl, es, c)
    ensures Passes(sign, ttl, used, es, c) <= 1
    decreases |es|
  {
    if c !in used {
      PassesTwiceIff(sign, ttl, used, es, c);
      PromptNeverDroppedThenTried(sign, ttl, es, c, now);
    } else if es != [] {
      var e, rest := es[0], es[1..];
      assert forall i :: 0 <= i < |rest| ==> rest[i] == es[i + 1];
      SingleUse(sign, ttl, UsedAfter(sign, ttl, used, e), rest, c, When(e));
    }
  }

  /** Without promptness it fails for every challenge: an attempt that read the clock in time but
      consumes after a cleanup has dropped the entry gets past a second time. */
  lemma StalledAttemptPassesTwice(sign: string -> string, ttl: int, c: string, now: int, late: int)
    requires ttl > 0 && Examine(sign, ttl, c, now).Admitted? && now <= late
    requires Examine(sign, ttl, c, now).ts * SECOND < late * SECOND - ttl
    ensures var es := [Attempt(c, now, now), Clean(late), Attempt(c, now, late)];
      Timed(es, now) && Passes(sign, ttl, map[], es, c) == 2
  {
    var a, b, d := Attempt(c, now, now), Clean(late), Attempt(c, now, late);
    var es := [a, b, d];
    assert [d][1..] == [] && [b, d][1..] == [d] && es[1..] == [b, d];
    var u := UsedAfter(sign, ttl, map[], a);
    var w := UsedAfter(sign, ttl, u, b);
    assert u == map[c := Examine(sign, ttl, c, now).ts] && w == map[];
    assert Passes(sign, ttl, w, [d], c) == 1;
    assert Passes(sign, ttl, u, [b, d], c) == 1;
    assert Timed([d], late) && Timed([b, d], now);
  }
}
