/** Time-based one-time codes and their replay cache (crypto.py). The keyed hash is a
    parameter; everything around it is modelled. */
module Replay {
  import opened Bytes
  import opened Options
  import opened Text
  import Envelope

  const TIME_STEP := 30
  const DIGITS := 6
  const STEP_WINDOW := 2

  /** `(STEP_WINDOW * 2 + 1) * TIME_STEP + 30` seconds. */
  const TTL: real := ((STEP_WINDOW * 2 + 1) * TIME_STEP) as real + 30.0

  // ---- codes ----

  /** An HMAC-SHA1 digest. */
  type Digest = d: seq<Byte> | |d| == 20 witness seq(20, _ => 0)

  type Mac = (seq<Byte>, nat) -> Digest

  /** Dynamic truncation, section 5.3 of RFC 4226. */
  function Truncate(d: Digest): (v: nat)
    ensures v < 0x8000_0000
  {
    var offset := d[19] % 16;
    Envelope.FromBigEndian(d[offset..offset + 4]) % 0x8000_0000
  }

  /** Decimal digit number `k` of `v`, counted from the right. */
  function Digit(v: nat, k: nat): char {
    if k == 0 then ('0' as int + v % 10) as char else Digit(v / 10, k - 1)
  }

  /** The last `n` decimal digits of `v`, zero-filled. */
  function Decimal(v: nat, n: nat): (s: string)
    ensures |s| == n
  {
    seq(n, i requires 0 <= i < n => Digit(v, n - 1 - i))
  }

  function CodeAt(mac: Mac, secret: seq<Byte>, counter: nat): (code: string)
    ensures |code| == DIGITS
  {
    Decimal(Truncate(mac(secret, counter)) % 1_000_000, DIGITS)
  }

  predicate AllDecimal(s: string) { forall k :: 0 <= k < |s| ==> '0' <= s[k] <= '9' }

  lemma {:induction false} DigitIsDecimal(v: nat, k: nat)
    ensures '0' <= Digit(v, k) <= '9'
  {
    if k > 0 { DigitIsDecimal(v / 10, k - 1); }
  }

  lemma DecimalIsDecimal(v: nat, n: nat)
    ensures AllDecimal(Decimal(v, n))
  {
    forall i | 0 <= i < n ensures '0' <= Decimal(v, n)[i] <= '9' {
      DigitIsDecimal(v, n - 1 - i);
    }
  }

  // ---- the acceptance window ----

  /** `int(timestamp)`: towards zero. */
  function Whole(t: real): int {
    if t >= 0.0 then t.Floor else -((-t).Floor)
  }

  function StepOf(t: real): int { Whole(t) / TIME_STEP }

  /** The step numbers whose code is acceptable at time `t`. */
  predicate InWindow(step: int, t: real) {
    step >= 0 && StepOf(t) - STEP_WINDOW <= step <= StepOf(t) + STEP_WINDOW
  }

  /** One step is acceptable for less than 150 seconds; a second more only for times before
      1970, where `int` rounds the other way. */
  lemma WindowWidth(step: int, t: real, u: real)
    requires InWindow(step, t) && InWindow(step, u) && t <= u
    ensures u - t < 151.0
    ensures t >= 0.0 ==> u - t < 150.0
  {
    var w, x := Whole(t), Whole(u);
    assert w / TIME_STEP >= step - 2 && x / TIME_STEP <= step + 2;
    assert w >= 30 * (step - 2) && x < 30 * (step + 3);
    assert w as real <= t + 1.0 && (t >= 0.0 ==> w as real <= t);
    assert u < x as real + 1.0;
    assert x + 1 <= w + 150;
    assert (x + 1) as real <= (w + 150) as real == w as real + 150.0;
  }

  /** The first step of the window, from `delta` on, whose code is `code`. */
  function MatchFrom(mac: Mac, secret: seq<Byte>, code: string, base: int, delta: int): (step: Option<nat>)
    decreases STEP_WINDOW + 1 - delta
  {
    if delta > STEP_WINDOW then None
    else if base + delta >= 0 && CodeAt(mac, secret, base + delta) == code then Some(base + delta)
    else MatchFrom(mac, secret, code, base, delta + 1)
  }

  function MatchStep(mac: Mac, secret: seq<Byte>, code: string, t: real): Option<nat> {
    MatchFrom(mac, secret, code, StepOf(t), -STEP_WINDOW)
  }

  lemma {:induction false} MatchFromFindsAny(mac: Mac, secret: seq<Byte>, code: string, base: int, delta: int)
    ensures var m := MatchFrom(mac, secret, code, base, delta);
      && (m.Some? ==> base + delta <= m.value <= base + STEP_WINDOW && CodeAt(mac, secret, m.value) == code)
      && (m.None? ==> forall step: nat :: base + delta <= step <= base + STEP_WINDOW ==>
            CodeAt(mac, secret, step) != code)
    decreases STEP_WINDOW + 1 - delta
  {
    hide CodeAt;
    if delta <= STEP_WINDOW && !(base + delta >= 0 && CodeAt(mac, secret, base + delta) == code) {
      MatchFromFindsAny(mac, secret, code, base, delta + 1);
    }
  }

  /** A code matches exactly when it is the code of some step of the window. */
  lemma {:induction false} MatchStepIff(mac: Mac, secret: seq<Byte>, code: string, t: real)
    ensures MatchStep(mac, secret, code, t).Some? <==>
      exists step: nat :: InWindow(step, t) && CodeAt(mac, secret, step) == code
    ensures MatchStep(mac, secret, code, t).Some? ==>
      var step := MatchStep(mac, secret, code, t).value; InWindow(step, t) && CodeAt(mac, secret, step) == code
  {
    MatchFromFindsAny(mac, secret, code, StepOf(t), -STEP_WINDOW);
  }

  // ---- what a code is ----

  function Pow10(n: nat): (p: nat)
    ensures p >= 1
  {
    if n == 0 then 1 else 10 * Pow10(n - 1)
  }

  /** The number a string of decimal digits is read as, from left to right. */
  function NumberOf(s: string): int {
    if s == [] then 0 else 10 * NumberOf(s[..|s| - 1]) + (s[|s| - 1] as int - 48)
  }

  lemma {:induction false} TopDigit(v: nat, n: nat)
    requires n > 0
    ensures Decimal(v, n) == Decimal(v / 10, n - 1) + [(48 + v % 10) as char]
  {
    var s, t := Decimal(v, n), Decimal(v / 10, n - 1);
    forall i | 0 <= i < n ensures s[i] == (t + [(48 + v % 10) as char])[i] {
      if i < n - 1 { assert s[i] == Digit(v, n - 1 - i) == Digit(v / 10, n - 2 - i) == t[i]; }
    }
  }

  lemma LowDigits(v: nat, p: nat)
    requires p >= 1
    ensures 10 * (v / 10 % p) + v % 10 == v % (10 * p)
  {
    var q, r := v / 10 / p, v / 10 % p;
    assert v / 10 == q * p + r;
    assert v == (10 * p) * q + (10 * r + v % 10);
    RemainderIs(v, 10 * p, q, 10 * r + v % 10);
  }

  lemma RemainderIs(v: nat, d: nat, q: nat, r: nat)
    requires d > 0 && v == d * q + r && r < d
    ensures v % d == r
  {
    var k := v / d - q;
    assert v == d * (v / d) + v % d;
    assert d * k == r - v % d by { assert d * (v / d) - d * q == d * k; }
    MultiplesGrow(d, k);
  }

  lemma MultiplesGrow(d: nat, k: int)
    ensures k >= 1 ==> d * k >= d
    ensures k <= -1 ==> d * k <= 0 - d
  {
    if k >= 1 {
      assert d * k == d + d * (k - 1);
    } else if k <= -1 {
      assert d * k == d * (k + 1) - d;
    }
  }

  /** A code spells the remainder: zero-filled decimal, most significant digit first. */
  lemma {:induction false} DecimalSpells(v: nat, n: nat)
    ensures NumberOf(Decimal(v, n)) == v % Pow10(n)
  {
    if n > 0 {
      DecimalSpells(v / 10, n - 1);
      TopDigit(v, n);
      assert Decimal(v, n)[..n - 1] == Decimal(v / 10, n - 1);
      LowDigits(v, Pow10(n - 1));
    }
  }

  lemma {:induction false} SameNumberSameString(s: string, t: string)
    requires |s| == |t| && AllDecimal(s) && AllDecimal(t) && NumberOf(s) == NumberOf(t)
    ensures s == t
  {
    if s != [] {
      var a, b := s[..|s| - 1], t[..|t| - 1];
      assert s == a + [s[|s| - 1]] && t == b + [t[|t| - 1]];
      assert 0 <= s[|s| - 1] as int - 48 <= 9 && 0 <= t[|t| - 1] as int - 48 <= 9;
      SameNumberSameString(a, b);
    }
  }

  /** Dynamic truncation (section 5.3 of RFC 4226): the four bytes at the offset that the low
      half of the last byte names, with the top bit cleared. */
  lemma TruncateIs(d: Digest)
    ensures var at := d[19] % 16;
      Truncate(d) ==
        (d[at] as int % 128) * 0x100_0000 + d[at + 1] as int * 0x1_0000 + d[at + 2] as int * 0x100 + d[at + 3]
  {
    var at := d[19] % 16;
    var bs := d[at..at + 4];
    assert bs[0] == d[at] && bs[1] == d[at + 1] && bs[2] == d[at + 2] && bs[3] == d[at + 3];
    var low := bs[1] as int * 0x1_0000 + bs[2] as int * 0x100 + bs[3] as int;
    var n := Envelope.FromBigEndian(bs);
    assert n == bs[0] as int * 0x100_0000 + low;
    RemainderIs(n, 0x8000_0000, bs[0] as int / 128, (bs[0] as int % 128) * 0x100_0000 + low);
  }

  /** A text is the code of a step exactly when it is six decimal digits that read as the
      truncated hash modulo a million. */
  lemma CodeIsIff(mac: Mac, secret: seq<Byte>, step: nat, s: string)
    ensures s == CodeAt(mac, secret, step) <==>
      |s| == 6 && AllDecimal(s) && NumberOf(s) == Truncate(mac(secret, step)) % 1_000_000
  {
    hide Truncate, Decimal, NumberOf;
    var v := Truncate(mac(secret, step)) % 1_000_000;
    DecimalIsDecimal(v, 6);
    DecimalSpells(v, 6);
    assert Pow10(6) == 1_000_000;
    if |s| == 6 && AllDecimal(s) && NumberOf(s) == v { SameNumberSameString(s, Decimal(v, 6)); }
  }

  /** The acceptance window in seconds: two steps of 30 seconds on either side. */
  lemma WindowIs(step: int, t: real)
    ensures t >= 0.0 ==>
      (InWindow(step, t) <==> step >= 0 && (30 * (step - 2)) as real <= t < (30 * (step + 3)) as real)
    ensures t < 0.0 ==>
      (InWindow(step, t) <==> step >= 0 && (30 * (step - 2) - 1) as real < t <= (30 * (step + 3) - 1) as real)
  {
    var w, lo, hi := Whole(t), 30 * (step - 2), 30 * (step + 3);
    assert StepOf(t) - 2 <= step <==> w < hi;
    assert step <= StepOf(t) + 2 <==> lo <= w;
    if t >= 0.0 {
      assert lo <= w <==> lo as real <= t;
      assert w < hi <==> t < hi as real;
    } else {
      assert lo <= w <==> (lo - 1) as real < t;
      assert w < hi <==> t <= (hi - 1) as real;
    }
  }

  // ---- the cache as a value ----

  type Seen = map<string, real>

  function Key(node: string, code: string): string { node + "|" + code }

  function Pruned(seen: Seen, now: real): Seen {
    map k | k in seen && !(now - seen[k] > TTL) :: seen[k]
  }

  predicate Fresh(seen: Seen, node: string, code: string, now: real) {
    Key(node, code) !in Pruned(seen, now)
  }

  function Claimed(seen: Seen, node: string, code: string, now: real): Seen {
    if Fresh(seen, node, code, now) then Pruned(seen, now)[Key(node, code) := now] else Pruned(seen, now)
  }

  predicate Hits(node: string, key: string) { node + "|" <= key }

  function Released(seen: Seen, node: string): Seen {
    map k | k in seen && !Hits(node, k) :: seen[k]
  }

  /** `claim`, `release` and `_prune_locked`, on the dictionary they share. */
  class ReplayCache {
    var seen: Seen

    constructor ()
      ensures seen == map[]
    {
      seen := map[];
    }

    method Claim(node: string, code: string, now: real) returns (ok: bool)
      modifies this
      ensures seen == Claimed(old(seen), node, code, now)
      ensures ok == Fresh(old(seen), node, code, now)
    {
      Prune(now);
      var key := Key(node, code);
      if key in seen {
        return false;
      }
      seen := seen[key := now];
      return true;
    }

    method Release(node: string)
      modifies this
      ensures seen == Released(old(seen), node)
    {
      var todo := set k | k in seen && Hits(node, k);
      Drop(todo);
    }

    method Prune(now: real)
      modifies this
      ensures seen == Pruned(old(seen), now)
    {
      var expired := set k | k in seen && now - seen[k] > TTL;
      Drop(expired);
    }

    /** `for k in keys: del self._seen[k]` */
    method Drop(keys: set<string>)
      requires keys <= seen.Keys
      modifies this
      ensures seen == map k | k in old(seen) && k !in keys :: old(seen)[k]
    {
      var todo := keys;
      while todo != {}
        invariant todo <= keys
        invariant seen == map k | k in old(seen) && k !in keys - todo :: old(seen)[k]
        decreases |todo|
      {
        var k :| k in todo;
        seen := seen - {k};
        todo := todo - {k};
      }
    }

    /** `validate` against this cache. */
    method Validate(mac: Mac, secret: seq<Byte>, code: string, now: real, node: string) returns (ok: bool)
      modifies this
      ensures ok == Accepts(old(seen), mac, secret, code, now, node)
      ensures seen == AfterAttempt(old(seen), mac, secret, code, now, node)
    {
      hide Strip, CodeAt, StepOf, Pruned;
      var stripped := Strip(code);
      if |stripped| != DIGITS {
        return false;
      }
      var base := StepOf(now);
      var delta := -STEP_WINDOW;
      while delta <= STEP_WINDOW
        invariant -STEP_WINDOW <= delta <= STEP_WINDOW + 1
        invariant MatchFrom(mac, secret, stripped, base, delta) == MatchStep(mac, secret, stripped, now)
        invariant seen == old(seen)
      {
        var step := base + delta;
        if step >= 0 && CodeAt(mac, secret, step) == stripped {
          ok := Claim(node, stripped, now);
          return;
        }
        delta := delta + 1;
      }
      return false;
    }
  }

  /** The code names a step of the window, so the cache is asked. */
  predicate Matches(mac: Mac, secret: seq<Byte>, code: string, now: real) {
    |Strip(code)| == DIGITS && MatchStep(mac, secret, Strip(code), now).Some?
  }

  predicate Accepts(seen: Seen, mac: Mac, secret: seq<Byte>, code: string, now: real, node: string) {
    Matches(mac, secret, code, now) && Fresh(seen, node, Strip(code), now)
  }

  function AfterAttempt(seen: Seen, mac: Mac, secret: seq<Byte>, code: string, now: real, node: string): Seen {
    if Matches(mac, secret, code, now) then Claimed(seen, node, Strip(code), now) else seen
  }

  /** What `validate` accepts, in figures: six digits with any whitespace around, which read as
      the truncated hash modulo a million of a step in the window, under a key without a claim
      of the last 180 seconds. */
  lemma AcceptsIff(seen: Seen, mac: Mac, secret: seq<Byte>, code: string, now: real, node: string)
    ensures var s := Strip(code);
      Accepts(seen, mac, secret, code, now, node) <==>
        && |s| == 6 && AllDecimal(s)
        && (exists step: nat :: InWindow(step, now) && NumberOf(s) == Truncate(mac(secret, step)) % 1_000_000)
        && (node + "|" + s in seen ==> now - seen[node + "|" + s] > 180.0)
  {
    hide Strip, Truncate, NumberOf, AllDecimal, CodeAt, MatchStep, InWindow;
    var s := Strip(code);
    MatchStepIff(mac, secret, s, now);
    forall step: nat ensures s == CodeAt(mac, secret, step) <==>
      |s| == 6 && AllDecimal(s) && NumberOf(s) == Truncate(mac(secret, step)) % 1_000_000
    {
      CodeIsIff(mac, secret, step, s);
    }
    assert Fresh(seen, node, s, now) <==> (node + "|" + s in seen ==> now - seen[node + "|" + s] > 180.0);
  }

  /** What an attempt leaves in the cache. One whose code matches no step leaves it alone; any
      other drops the claims older than 180 seconds, keeps the rest with their times, and
      records its own time when it is accepted. */
  lemma AttemptRecords(seen: Seen, mac: Mac, secret: seq<Byte>, code: string, now: real, node: string, key: string)
    ensures var t, own := AfterAttempt(seen, mac, secret, code, now, node), node + "|" + Strip(code);
      if !Matches(mac, secret, code, now) then t == seen
      else
        && own in t
        && (Accepts(seen, mac, secret, code, now, node) ==> t[own] == now)
        && (!Accepts(seen, mac, secret, code, now, node) ==> own in seen && t[own] == seen[own])
        && (key != own ==> (key in t <==> key in seen && now - seen[key] <= 180.0))
        && (key != own && key in t ==> t[key] == seen[key])
  {
    hide Strip, Matches;
  }

  /** A release drops every claim under the node's id and a bar, and keeps the others. */
  lemma ReleaseDrops(seen: Seen, mac: Mac, node: string, rest: string, key: string)
    ensures var t := After(seen, mac, Release(node));
      && node + "|" + rest !in t
      && (!(node + "|" <= key) ==> (key in t <==> key in seen) && (key in t ==> t[key] == seen[key]))
  {
    assert node + "|" <= node + "|" + rest;
  }

  // ---- runs ----

  datatype Event =
    | Attempt(secret: seq<Byte>, code: string, at: real, node: string)
    | Release(node: string)

  function After(seen: Seen, mac: Mac, e: Event): Seen {
    match e
    case Attempt(secret, code, at, node) => AfterAttempt(seen, mac, secret, code, at, node)
    case Release(node) => Released(seen, node)
  }

  function Run(mac: Mac, es: seq<Event>): Seen {
    if es == [] then map[] else After(Run(mac, es[..|es| - 1]), mac, es[|es| - 1])
  }

  /** Event `i` was an attempt and `validate` returned True. */
  predicate Succeeds(mac: Mac, es: seq<Event>, i: nat)
    requires i < |es|
  {
    var e := es[i];
    e.Attempt? && Accepts(Run(mac, es[..i]), mac, e.secret, e.code, e.at, e.node)
  }

  /** No attempt since `i` carries a time more than `slack` ahead of the one at `j`. The
      handler reads the clock before it waits for the first frame, so attempts can be late. */
  ghost predicate NotOvertaken(es: seq<Event>, i: nat, j: nat, slack: real)
    requires j < |es| && es[j].Attempt?
  {
    forall k :: i <= k < j && es[k].Attempt? ==> es[k].at <= es[j].at + slack
  }

  /** How far behind an attempt may be: the TTL less the acceptance window (a second less for
      times before 1970). */
  predicate Tolerable(slack: real, at: real) {
    0.0 <= slack <= 30.0 && (at >= 0.0 || slack <= 29.0)
  }

  /** No release between `i` and `j` drops this key. */
  predicate Undisturbed(es: seq<Event>, i: nat, j: nat, key: string)
    requires j <= |es|
  {
    forall k :: i < k < j ==> !(es[k].Release? && Hits(es[k].node, key))
  }

  /** The claim taken at `i` is still there with its time, or has outlived its TTL. */
  predicate HeldOrOld(seen: Seen, key: string, since: real, clock: real) {
    (key in seen && seen[key] == since) || clock - since > TTL
  }

  function Later(t: real, u: real): real { if u > t then u else t }

  lemma ClaimKeepsHeld(seen: Seen, key: string, since: real, clock: real, node: string, code: string, now: real)
    requires HeldOrOld(seen, key, since, clock)
    ensures HeldOrOld(Claimed(seen, node, code, now), key, since, Later(clock, now))
  {
    if key in seen && seen[key] == since && !(now - since > TTL) {
      assert key in Pruned(seen, now);
    }
  }

  /** The latest time of an attempt in `es[i..n]`. */
  function Latest(es: seq<Event>, i: nat, n: nat): real
    requires i < n <= |es| && es[i].Attempt?
  {
    if n == i + 1 then es[i].at
    else if es[n - 1].Attempt? then Later(Latest(es, i, n - 1), es[n - 1].at)
    else Latest(es, i, n - 1)
  }

  lemma {:induction false} LatestBound(es: seq<Event>, i: nat, n: nat, bound: real)
    requires i < n <= |es| && es[i].Attempt?
    requires forall k :: i <= k < n && es[k].Attempt? ==> es[k].at <= bound
    ensures Latest(es, i, n) <= bound
  {
    if n > i + 1 { LatestBound(es, i, n - 1, bound); }
  }

  lemma StepKeepsHeld(seen: Seen, mac: Mac, e: Event, key: string, since: real, clock: real)
    requires HeldOrOld(seen, key, since, clock) && !(e.Release? && Hits(e.node, key))
    ensures HeldOrOld(After(seen, mac, e), key, since, if e.Attempt? then Later(clock, e.at) else clock)
  {
    hide Strip, Matches;
    if e.Attempt? { ClaimKeepsHeld(seen, key, since, clock, e.node, Strip(e.code), e.at); }
  }

  lemma SuccessIsHeld(seen: Seen, mac: Mac, e: Event)
    requires e.Attempt? && Accepts(seen, mac, e.secret, e.code, e.at, e.node)
    ensures HeldOrOld(After(seen, mac, e), Key(e.node, Strip(e.code)), e.at, e.at)
  {
    hide Strip, Matches;
  }

  lemma {:induction false} ClaimSurvives(mac: Mac, es: seq<Event>, i: nat, n: nat)
    requires i < n <= |es| && Succeeds(mac, es, i)
    requires Undisturbed(es, i, n, Key(es[i].node, Strip(es[i].code)))
    ensures HeldOrOld(Run(mac, es[..n]), Key(es[i].node, Strip(es[i].code)), es[i].at, Latest(es, i, n))
    decreases n
  {
    hide Strip, Accepts, After, HeldOrOld, Hits;
    assert es[..n][..n - 1] == es[..n - 1];
    if n - 1 == i {
      SuccessIsHeld(Run(mac, es[..i]), mac, es[i]);
    } else {
      ClaimSurvives(mac, es, i, n - 1);
      var key := Key(es[i].node, Strip(es[i].code));
      StepKeepsHeld(Run(mac, es[..n - 1]), mac, es[n - 1], key, es[i].at, Latest(es, i, n - 1));
    }
  }

  /** Two successes with the same node and code and no release between are more than 180
      seconds apart, less what the second one lags behind the attempts in between. */
  lemma {:induction false} SuccessesFarApart(mac: Mac, es: seq<Event>, i: nat, j: nat, slack: real)
    requires i < j < |es| && Succeeds(mac, es, i) && Succeeds(mac, es, j)
    requires Key(es[i].node, Strip(es[i].code)) == Key(es[j].node, Strip(es[j].code))
    requires Undisturbed(es, i, j, Key(es[i].node, Strip(es[i].code)))
    requires slack >= 0.0 && NotOvertaken(es, i, j, slack)
    ensures es[j].at - es[i].at > 180.0 - slack
  {
    ClaimSurvives(mac, es, i, j);
    LatestBound(es, i, j, es[j].at + slack);
  }

  /** One-time use (section 5.2 of RFC 6238): while no release intervenes, no time step ever
      authenticates a node twice - no step is acceptable at both successes - as long as the
      second attempt is at most 30 seconds behind those before it. */
  lemma {:induction false} OneStepOneUse(mac: Mac, es: seq<Event>, i: nat, j: nat, step: nat, slack: real)
    requires i < j < |es| && Succeeds(mac, es, i) && Succeeds(mac, es, j)
    requires es[i].node == es[j].node && es[i].secret == es[j].secret
    requires Undisturbed(es, i, j, Key(es[i].node, Strip(es[i].code)))
    requires Tolerable(slack, es[i].at) && NotOvertaken(es, i, j, slack)
    requires InWindow(step, es[i].at) && CodeAt(mac, es[i].secret, step) == Strip(es[i].code)
    ensures !(InWindow(step, es[j].at) && CodeAt(mac, es[j].secret, step) == Strip(es[j].code))
  {
    if InWindow(step, es[j].at) && CodeAt(mac, es[j].secret, step) == Strip(es[j].code) {
      SuccessesFarApart(mac, es, i, j, slack);
      WindowWidth(step, es[i].at, es[j].at);
    }
  }

  // ---- the tolerance is exact ----

  function Gap(slack: real): real { if slack > 32.0 then 1.0 else (slack - 30.0) / 2.0 }

  /** A node is let in, another node prunes the cache more than 180 seconds later, and a
      stalled stream of the first node presents the same code with an older time. */
  function Stalled(mac: Mac, secret: seq<Byte>, slack: real): seq<Event> {
    var gap := Gap(slack);
    [ Attempt(secret, CodeAt(mac, secret, 2), 0.0, "a"),
      Attempt(secret, CodeAt(mac, secret, 6), 180.0 + gap, "b"),
      Attempt(secret, CodeAt(mac, secret, 2), 150.0 - gap, "a") ]
  }

  lemma StripDecimal(s: string)
    requires AllDecimal(s)
    ensures Strip(s) == s
  {
  }

  /** An attempt with the code of a step in the window succeeds when its claim is free. */
  lemma CodeMatches(mac: Mac, secret: seq<Byte>, step: nat, t: real)
    requires InWindow(step, t)
    ensures var code := CodeAt(mac, secret, step);
      Strip(code) == code && Matches(mac, secret, code, t)
  {
    DecimalIsDecimal(Truncate(mac(secret, step)) % 1_000_000, DIGITS);
    StripDecimal(CodeAt(mac, secret, step));
    MatchStepIff(mac, secret, CodeAt(mac, secret, step), t);
  }

  lemma SecondSucceeds(mac: Mac, secret: seq<Byte>, slack: real)
    requires slack > 30.0
    ensures Succeeds(mac, Stalled(mac, secret, slack), 1)
  {
    hide Strip, Matches, CodeAt, MatchStep;
    var es := Stalled(mac, secret, slack);
    CodeMatches(mac, secret, 2, 0.0);
    CodeMatches(mac, secret, 6, 180.0 + Gap(slack));
    assert es[..1][..0] == [];
    assert Run(mac, es[..1]) == map[Key("a", CodeAt(mac, secret, 2)) := 0.0];
    assert Key("a", CodeAt(mac, secret, 2))[0] == 'a' && Key("b", CodeAt(mac, secret, 6))[0] == 'b';
  }

  /** For every lag beyond 30 seconds there is a run in which one step lets a node in twice. */
  lemma LaterIsReused(mac: Mac, secret: seq<Byte>, slack: real)
    requires slack > 30.0
    ensures var es := Stalled(mac, secret, slack);
      && NotOvertaken(es, 0, 2, slack)
      && Succeeds(mac, es, 0) && Succeeds(mac, es, 2) && Undisturbed(es, 0, 2, Key("a", Strip(es[0].code)))
      && InWindow(2, es[0].at) && InWindow(2, es[2].at)
      && CodeAt(mac, secret, 2) == Strip(es[0].code) == Strip(es[2].code)
  {
    hide Strip, Matches, CodeAt, MatchStep;
    var gap, es := Gap(slack), Stalled(mac, secret, slack);
    var code, other := CodeAt(mac, secret, 2), CodeAt(mac, secret, 6);
    CodeMatches(mac, secret, 2, 0.0);
    CodeMatches(mac, secret, 6, 180.0 + gap);
    CodeMatches(mac, secret, 2, 150.0 - gap);
    assert es[..0] == [] && es[..1][..0] == [] && es[..2][..1] == es[..1];
    assert Run(mac, es[..1]) == map[Key("a", code) := 0.0];
    assert Key("a", code)[0] == 'a' && Key("b", other)[0] == 'b';
    assert Run(mac, es[..2]) == map[Key("b", other) := 180.0 + gap];
  }

  // ---- what a release drops ----

  /** Releasing `node` drops the claim (owner, code) exactly when `owner` is `node` or
      starts with `node` and a bar. */
  lemma ReleaseHitsIff(node: string, owner: string, code: string)
    requires '|' !in code
    ensures Hits(node, Key(owner, code)) <==> node == owner || Hits(node, owner)
  {
    var key, p := Key(owner, code), node + "|";
    if |node| > |owner| {
      assert p[|node|] == '|';
      assert |node| < |key| ==> key[|node|] == code[|node| - |owner| - 1];
    } else if |node| == |owner| {
      assert key[..|p|] == owner + "|";
      assert p[..|node|] == node && (owner + "|")[..|node|] == owner;
    } else {
      assert key[..|p|] == owner[..|p|];
    }
  }

  /** So node ids without a bar are released exactly. */
  lemma ReleaseIsExact(node: string, owner: string, code: string)
    requires '|' !in code && '|' !in owner
    ensures Hits(node, Key(owner, code)) <==> node == owner
  {
    ReleaseHitsIff(node, owner, code);
    if Hits(node, owner) { HitNeedsBar(node, owner); }
  }

  lemma HitNeedsBar(node: string, owner: string)
    requires Hits(node, owner)
    ensures '|' in owner
  {
    assert owner[|node|] == (node + "|")[|node|];
  }
}
