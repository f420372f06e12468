/** Percent rollouts (packages/core/feature-flags/hash.ts and static-provider.ts). Strings are
    sequences of UTF-8 bytes. */
module FeatureFlags {
  import opened Options

  const TWO32: int := 0x1_0000_0000
  const OFFSET_BASIS: int := 0x811c9dc5
  const PRIME: int := 0x01000193

  type Byte = x: int | 0 <= x < 0x100
  type UInt32 = x: int | 0 <= x < 0x1_0000_0000
  type Int32 = x: int | -0x8000_0000 <= x < 0x8000_0000
  type Text = seq<Byte>

  function Pow2(n: nat): (r: nat)
    ensures r > 0
  {
    if n == 0 then 1 else 2 * Pow2(n - 1)
  }

  /** Bitwise exclusive or of two n-bit numbers. */
  function XorBits(a: nat, b: nat, n: nat): (r: nat)
    requires a < Pow2(n) && b < Pow2(n)
    ensures r < Pow2(n)
    decreases n, a, b
  {
    if n == 0 then 0 else (if a % 2 == b % 2 then 0 else 1) + 2 * XorBits(a / 2, b / 2, n - 1)
  }

  lemma Product(m: nat, d: nat)
    requires d > 0
    ensures m * d >= m
  {
    assert m * d == m + m * (d - 1);
  }

  /** Quotient and remainder are determined. */
  lemma QuotientIs(x: nat, m: nat, q: nat, r: nat)
    requires x == m * q + r && r < m
    ensures x / m == q && x % m == r
  {
    var p: nat := x / m;
    assert x == m * p + x % m;
    if p < q {
      assert m * q == m * p + m * (q - p);
      Product(m, q - p);
    } else if p > q {
      assert m * p == m * q + m * (p - q);
      Product(m, p - q);
    }
  }

  lemma HalfFirst(x: nat, m: nat)
    requires m > 0
    ensures x / (2 * m) == x / 2 / m
  {
    var q, r := x / 2 / m, x / 2 % m;
    assert x / 2 == m * q + r;
    assert x == 2 * m * q + (2 * r + x % 2);
    QuotientIs(x, 2 * m, q, 2 * r + x % 2);
  }

  /** A bit of the exclusive or is set exactly when that bit of one number differs from that of the other. */
  lemma {:induction false} XorDiffersBitwise(a: nat, b: nat, n: nat, i: nat)
    requires a < Pow2(n) && b < Pow2(n) && i < n
    ensures XorBits(a, b, n) / Pow2(i) % 2 == if a / Pow2(i) % 2 != b / Pow2(i) % 2 then 1 else 0
    decreases n
  {
    var x := XorBits(a, b, n);
    if i > 0 {
      assert x / 2 == XorBits(a / 2, b / 2, n - 1);
      XorDiffersBitwise(a / 2, b / 2, n - 1, i - 1);
      HalfFirst(a, Pow2(i - 1));
      HalfFirst(b, Pow2(i - 1));
      HalfFirst(x, Pow2(i - 1));
    } else {
      assert Pow2(0) == 1;
    }
  }

  lemma Pow2Of32()
    ensures Pow2(32) == TWO32
  {
    assert Pow2(8) == 0x100;
    assert Pow2(16) == 0x1_0000;
    assert Pow2(24) == 0x100_0000;
  }

  function Xor(a: UInt32, b: UInt32): UInt32 {
    Pow2Of32();
    XorBits(a, b, 32)
  }

  // ----- JavaScript's 32-bit operators on numbers -----

  function ToUint32(x: int): UInt32 {
    x % TWO32
  }

  function ToInt32(x: int): Int32 {
    var u := ToUint32(x);
    if u >= 0x8000_0000 then u - TWO32 else u
  }

  /** `a ^ b` */
  function JsXor(a: int, b: int): Int32 {
    ToInt32(Xor(ToUint32(a), ToUint32(b)))
  }

  /** `Math.imul(a, b)` */
  function Imul(a: int, b: int): Int32 {
    ToInt32(ToInt32(a) * ToInt32(b))
  }

  // ----- FNV-1a modulo 2^32 (section 2 of draft-eastlake-fnv) -----

  function Step(h: UInt32, b: Byte): UInt32 {
    (Xor(h, b) * PRIME) % TWO32
  }

  function FnvFrom(h: UInt32, bytes: Text): UInt32
    decreases |bytes|
  {
    if bytes == [] then h else FnvFrom(Step(h, bytes[0]), bytes[1..])
  }

  lemma {:induction false} XorWithZero(a: nat, n: nat)
    requires a < Pow2(n)
    ensures XorBits(a, 0, n) == a
    decreases n
  {
    if n > 0 {
      XorWithZero(a / 2, n - 1);
    }
  }

  /** A number of few bits changes low bits only. */
  lemma {:induction false} XorIsLow(a: nat, b: nat, n: nat, k: nat)
    requires k <= n && a < Pow2(n) && b < Pow2(k) <= Pow2(n)
    ensures a % Pow2(k) < Pow2(k)
    ensures XorBits(a, b, n) == a - a % Pow2(k) + XorBits(a % Pow2(k), b, k)
    decreases k
  {
    if k == 0 {
      XorWithZero(a, n);
    } else {
      var m := Pow2(k - 1);
      var q, r := a / 2 / m, a / 2 % m;
      assert a / 2 == m * q + r;
      assert a == 2 * m * q + (2 * r + a % 2);
      QuotientIs(a, 2 * m, q, 2 * r + a % 2);
      XorIsLow(a / 2, b / 2, n - 1, k - 1);
    }
  }

  /** A step changes the last byte of the state before it multiplies. */
  lemma StepFromLastByte(h: UInt32, b: Byte)
    ensures Step(h, b) == ((h - h % 0x100 + XorBits(h % 0x100, b, 8)) * PRIME) % TWO32
  {
    Pow2Of32();
    assert Pow2(8) == 0x100;
    XorIsLow(h, b, 32, 8);
  }

  /** The published sums of the empty string and of "a". */
  lemma SumOfNothing()
    ensures FnvFrom(OFFSET_BASIS, []) == 0x811c9dc5
  {
  }

  lemma LowXorOfA(b: Byte)
    requires b == 0x61
    ensures Pow2(8) == 0x100 && XorBits(0xc5, b, 8) == 0xa4
  {
    assert XorBits(0xc5, 0x61, 8) == 0xa4;
  }

  lemma SumOfOne(h: UInt32, b: Byte)
    ensures FnvFrom(h, [b]) == Step(h, b)
  {
    assert [b][1..] == [];
  }

  lemma StepOver(h: UInt32, b: Byte, low: nat, x: nat)
    requires low == h % 0x100 && Pow2(8) == 0x100 && x == XorBits(low, b, 8)
    ensures Step(h, b) == ((h - low + x) * PRIME) % TWO32
  {
    StepFromLastByte(h, b);
  }

  lemma SumOfOffset(h: UInt32, b: Byte)
    requires h == OFFSET_BASIS && Pow2(8) == 0x100 && XorBits(0xc5, b, 8) == 0xa4
    ensures FnvFrom(h, [b]) == 0xe40c292c
  {
    SumOfOne(h, b);
    StepOver(h, b, 0xc5, 0xa4);
  }

  lemma SumOfA(b: Byte)
    requires b == 0x61
    ensures FnvFrom(OFFSET_BASIS, [b]) == 0xe40c292c
  {
    LowXorOfA(b);
    SumOfOffset(OFFSET_BASIS, b);
  }

  /** The parts with one zero byte between each two. */
  function Join(parts: seq<Text>): Text {
    if parts == [] then [] else if |parts| == 1 then parts[0] else parts[0] + [0] + Join(parts[1..])
  }

  lemma SignedIsCongruent(x: int)
    ensures ToInt32(x) == ToUint32(x) || ToInt32(x) == ToUint32(x) - TWO32
    ensures ToUint32(ToInt32(x)) == ToUint32(x)
  {
  }

  /** Replacing one factor by its signed reading does not move the product modulo 2^32. */
  lemma SignedFactor(s: int, u: int, b: int)
    requires s == u || s == u - TWO32
    ensures (s * b) % TWO32 == (u * b) % TWO32
  {
    if s != u {
      assert s * b == u * b + TWO32 * (-b);
      ModShift(u * b, -b);
    }
  }

  lemma ModShift(x: int, k: int)
    ensures (x + TWO32 * k) % TWO32 == x % TWO32
  {
  }

  /** Signed multiplication is multiplication modulo 2^32. */
  lemma ImulIsModular(a: int, b: int)
    ensures ToUint32(Imul(a, b)) == (ToUint32(a) * ToUint32(b)) % TWO32
  {
    var s: int, t: int, u: int, v: int := ToInt32(a), ToInt32(b), ToUint32(a), ToUint32(b);
    SignedIsCongruent(a);
    SignedIsCongruent(b);
    SignedIsCongruent(s * t);
    SignedFactor(s, u, t);
    SignedFactor(t, v, u);
    assert u * t == t * u && u * v == v * u;
  }

  lemma SignedTimesPrime(x: UInt32)
    ensures ToUint32(Imul(ToInt32(x), PRIME)) == (x * PRIME) % TWO32
  {
    ImulIsModular(ToInt32(x), PRIME);
    SignedIsCongruent(x);
  }

  /** One turn of the loop, on signed numbers, is one FNV-1a step on unsigned ones. */
  lemma JsStepIsStep(hash: int, b: Byte)
    ensures ToUint32(Imul(JsXor(hash, b), PRIME)) == Step(ToUint32(hash), b)
  {
    assert ToUint32(b) == b;
    SignedTimesPrime(Xor(ToUint32(hash), b));
  }

  lemma {:induction false} FnvConcat(h: UInt32, a: Text, b: Text)
    ensures FnvFrom(h, a + b) == FnvFrom(FnvFrom(h, a), b)
    decreases |a|
  {
    if a == [] {
      assert a + b == b;
    } else {
      assert (a + b)[1..] == a[1..] + b && (a + b)[0] == a[0];
      FnvConcat(Step(h, a[0]), a[1..], b);
    }
  }

  /** The inner loop over the bytes of one part. */
  method HashBytes(start: int, bytes: Text) returns (hash: int)
    ensures ToUint32(hash) == FnvFrom(ToUint32(start), bytes)
  {
    hash := start;
    var rest := bytes;
    while rest != []
      invariant FnvFrom(ToUint32(hash), rest) == FnvFrom(ToUint32(start), bytes)
      decreases |rest|
    {
      JsStepIsStep(hash, rest[0]);
      hash := JsXor(hash, rest[0]);
      hash := Imul(hash, PRIME);
      rest := rest[1..];
    }
  }

  /** The zero byte between two parts. */
  method HashSeparator(start: int) returns (hash: int)
    ensures ToUint32(hash) == FnvFrom(ToUint32(start), [0])
  {
    JsStepIsStep(start, 0);
    assert [0][1..] == [];
    hash := JsXor(start, 0);
    hash := Imul(hash, PRIME);
  }

  /** What will have been hashed at the end: the bytes done, and the parts still to come. */
  function Pending(done: Text, first: bool, rest: seq<Text>): Text {
    if rest == [] then done else if first then done + Join(rest) else done + [0] + Join(rest)
  }

  lemma Regroup(a: Text, b: Text, c: Text, d: Text)
    ensures a + (b + c + d) == (a + b) + (c + d)
  {
    assert a + (b + c + d) == (a + b) + (c + d);
  }

  lemma JoinTail(done: Text, rest: seq<Text>)
    requires rest != []
    ensures done + Join(rest) == if |rest| == 1 then done + rest[0] else (done + rest[0]) + ([0] + Join(rest[1..]))
  {
    if |rest| > 1 {
      Regroup(done, rest[0], [0], Join(rest[1..]));
    }
  }

  lemma PendingStep(done: Text, first: bool, rest: seq<Text>)
    requires rest != []
    ensures Pending(done, first, rest) ==
            Pending((if first then done else done + [0]) + rest[0], false, rest[1..])
  {
    JoinTail(if first then done else done + [0], rest);
  }

  /** The signed loop with the final unsigned shift computes FNV-1a over the joined parts. */
  method Fnv1a(parts: seq<Text>) returns (h: UInt32)
    ensures h == FnvFrom(OFFSET_BASIS, Join(parts))
  {
    var hash := OFFSET_BASIS;
    var rest := parts;
    var first := true;
    ghost var done: Text := [];
    while rest != []
      invariant ToUint32(hash) == FnvFrom(OFFSET_BASIS, done)
      invariant Join(parts) == Pending(done, first, rest)
      decreases |rest|
    {
      PendingStep(done, first, rest);
      if !first {
        FnvConcat(OFFSET_BASIS, done, [0]);
        hash := HashSeparator(hash);
        done := done + [0];
      }
      FnvConcat(OFFSET_BASIS, done, rest[0]);
      hash := HashBytes(hash, rest[0]);
      done := done + rest[0];
      rest := rest[1..];
      first := false;
    }
    h := ToUint32(hash);
  }

  /** What server/pkg/featureflag/hash.go writes to its hasher, piece by piece, gives the same sum. */
  lemma SameAsServer(key: Text, identifier: Text)
    ensures FnvFrom(FnvFrom(FnvFrom(OFFSET_BASIS, key), [0]), identifier) ==
            FnvFrom(OFFSET_BASIS, Join([key, identifier]))
  {
    FnvConcat(OFFSET_BASIS, key, [0]);
    FnvConcat(OFFSET_BASIS, key + [0], identifier);
    assert [key, identifier][1..] == [identifier];
    assert Join([key, identifier]) == key + [0] + Join([identifier]);
  }

  // ----- what the hash keeps apart -----

  lemma {:induction false} XorIsInjective(a: nat, b: nat, c: nat, n: nat)
    requires a < Pow2(n) && b < Pow2(n) && c < Pow2(n)
    requires XorBits(a, c, n) == XorBits(b, c, n)
    ensures a == b
    decreases n
  {
    if n > 0 {
      XorIsInjective(a / 2, b / 2, c / 2, n - 1);
    }
  }

  /** PRIME is invertible modulo 2^32. */
  lemma PrimeInverse(x: UInt32)
    ensures (((x * PRIME) % TWO32) * 0x359c449b) % TWO32 == x
  {
    var q, r := (x * PRIME) / TWO32, (x * PRIME) % TWO32;
    assert PRIME * 0x359c449b == 1 + TWO32 * 0x359c99;
    assert r * 0x359c449b == x + TWO32 * (x * 0x359c99 - q * 0x359c449b);
    ModShift(x, x * 0x359c99 - q * 0x359c449b);
  }

  /** Every step is a bijection on 32-bit states. */
  lemma StepIsInjective(a: UInt32, b: UInt32, c: Byte)
    requires Step(a, c) == Step(b, c)
    ensures a == b
  {
    PrimeInverse(Xor(a, c));
    PrimeInverse(Xor(b, c));
    Pow2Of32();
    XorIsInjective(a, b, c, 32);
  }

  /** Two states that differ stay different under any common suffix. */
  lemma {:induction false} SuffixNeverMerges(a: UInt32, b: UInt32, suffix: Text)
    requires FnvFrom(a, suffix) == FnvFrom(b, suffix)
    ensures a == b
    decreases |suffix|
  {
    if suffix != [] {
      SuffixNeverMerges(Step(a, suffix[0]), Step(b, suffix[0]), suffix[1..]);
      StepIsInjective(a, b, suffix[0]);
    }
  }

  /** The separator keeps (key, identifier) pairs apart: what is hashed determines both, as long as the
      keys contain no zero byte. */
  lemma {:induction false} JoinIsInjective(key: Text, identifier: Text, key': Text, identifier': Text)
    requires 0 !in key && 0 !in key' && Join([key, identifier]) == Join([key', identifier'])
    ensures key == key' && identifier == identifier'
    decreases |key|
  {
    JoinPair(key, identifier);
    JoinPair(key', identifier');
    var j := key + [0] + identifier;
    assert j == key' + [0] + identifier';
    if key == [] {
      assert j[0] == 0;
      assert key' == [];
      assert j[1..] == identifier && j[1..] == identifier';
    } else {
      assert j[0] == key[0];
      assert key' != [];
      assert j[1..] == key[1..] + [0] + identifier && j[1..] == key'[1..] + [0] + identifier';
      JoinPair(key[1..], identifier);
      JoinPair(key'[1..], identifier');
      JoinIsInjective(key[1..], identifier, key'[1..], identifier');
      assert key == [key[0]] + key[1..] && key' == [key'[0]] + key'[1..];
    }
  }

  lemma JoinPair(key: Text, identifier: Text)
    ensures Join([key, identifier]) == key + [0] + identifier
  {
    assert [key, identifier][1..] == [identifier];
  }

  // ----- rules -----

  function BucketFor(key: Text, identifier: Text): int {
    FnvFrom(OFFSET_BASIS, Join([key, identifier])) % 100
  }

  /** The bucket is the sum's residue modulo 100. */
  lemma BucketIsResidue(key: Text, identifier: Text) returns (hundreds: nat)
    ensures 0 <= BucketFor(key, identifier) < 100
    ensures FnvFrom(OFFSET_BASIS, key + [0] + identifier) == 100 * hundreds + BucketFor(key, identifier)
  {
    JoinPair(key, identifier);
    hundreds := FnvFrom(OFFSET_BASIS, Join([key, identifier])) / 100;
  }

  predicate InPercent(key: Text, identifier: Text, percent: real) {
    if percent <= 0.0 then false else if percent >= 100.0 then true else (BucketFor(key, identifier) as real) < percent
  }

  datatype PercentRule = PercentRule(percent: real, attr: Option<string>)

  datatype Rule = Rule(
    denyBy: Option<string>, deny: seq<Text>,
    allowBy: Option<string>, allow: seq<Text>,
    percent: Option<PercentRule>,
    default: Option<bool>,
    variant: Option<string>)

  datatype EvalContext = EvalContext(userId: Option<Text>, workspaceId: Option<Text>, attributes: map<string, Text>)

  datatype Reason = Static | Percent

  datatype Decision = Decision(key: Text, enabled: bool, variant: string, reason: Reason)

  function LookupAttr(ctx: EvalContext, name: string): Option<Text> {
    var v := if name == "user_id" then ctx.userId
             else if name == "workspace_id" then ctx.workspaceId
             else if name in ctx.attributes then Some(ctx.attributes[name]) else None;
    if v.Some? && v.value != [] then v else None
  }

  function AttrOr(name: Option<string>): string {
    if name.Some? then name.value else "user_id"
  }

  function DecisionFromRule(key: Text, rule: Rule, enabled: bool, reason: Reason): Decision {
    Decision(key, enabled,
             if enabled && Truthy(rule.variant) then rule.variant.value else if enabled then "on" else "off",
             reason)
  }

  predicate Listed(list: seq<Text>, v: Option<Text>) {
    v.Some? && v.value in list
  }

  function EvaluateRule(key: Text, rule: Rule, ctx: EvalContext): Decision {
    if Listed(rule.deny, LookupAttr(ctx, AttrOr(rule.denyBy))) then DecisionFromRule(key, rule, false, Static)
    else if Listed(rule.allow, LookupAttr(ctx, AttrOr(rule.allowBy))) then DecisionFromRule(key, rule, true, Static)
    else match rule.percent
      case Some(p) =>
        var v := LookupAttr(ctx, AttrOr(p.attr));
        DecisionFromRule(key, rule, InPercent(key, if v.Some? then v.value else [], p.percent), Percent)
      case None => DecisionFromRule(key, rule, rule.default == Some(true), Static)
  }

  /** The attribute of a name is the one the context has for it, unless that is empty. */
  lemma AttributeIs(ctx: EvalContext, name: string, v: Text)
    ensures LookupAttr(ctx, name) == Some(v) <==>
            && v != []
            && (name == "user_id" ==> ctx.userId == Some(v))
            && (name == "workspace_id" ==> ctx.workspaceId == Some(v))
            && (name != "user_id" && name != "workspace_id" ==> name in ctx.attributes && ctx.attributes[name] == v)
  {
  }

  /** The deny list wins over the allow list, that over the percentage, and that over the default; lists and
      percentage look at the user unless they name another attribute. */
  lemma RuleDecides(key: Text, rule: Rule, ctx: EvalContext)
    ensures var held := (name: Option<string>) => LookupAttr(ctx, if name.Some? then name.value else "user_id");
            var denier, allower, d := held(rule.denyBy), held(rule.allowBy), EvaluateRule(key, rule, ctx);
            var denied := denier.Some? && denier.value in rule.deny;
            var allowed := allower.Some? && allower.value in rule.allow;
            && (denied ==> !d.enabled)
            && (!denied && allowed ==> d.enabled)
            && (!denied && !allowed && rule.percent.None? ==> (d.enabled <==> rule.default == Some(true)))
            && (!denied && !allowed && rule.percent.Some? ==>
                  var v := held(rule.percent.value.attr);
                  (d.enabled <==> InPercent(key, if v.Some? then v.value else [], rule.percent.value.percent)))
            && d.key == key && (d.reason.Percent? <==> !denied && !allowed && rule.percent.Some?)
            && d.variant == if !d.enabled then "off"
                            else if rule.variant.None? || rule.variant.value == "" then "on"
                            else rule.variant.value
  {
  }

  /** Raising a rollout percent never turns a context off, and never changes one it leaves on. */
  lemma RolloutIsMonotone(key: Text, rule: Rule, ctx: EvalContext, percent: real)
    requires rule.percent.Some? && rule.percent.value.percent <= percent
    ensures var before := EvaluateRule(key, rule, ctx);
            var after := EvaluateRule(key, rule.(percent := Some(rule.percent.value.(percent := percent))), ctx);
            (before.enabled ==> after == before) && (before != after ==> !before.enabled && after.enabled)
  {
  }

  function AtPercent(rule: Rule, percent: real): Rule
    requires rule.percent.Some?
  {
    rule.(percent := Some(rule.percent.value.(percent := percent)))
  }

  /** What one context gets while the percentage is moved. */
  function Rollout(key: Text, rule: Rule, ctx: EvalContext, percents: seq<real>): seq<bool>
    requires rule.percent.Some?
  {
    if percents == [] then []
    else [EvaluateRule(key, AtPercent(rule, percents[0]), ctx).enabled] + Rollout(key, rule, ctx, percents[1..])
  }

  predicate Ascending(percents: seq<real>) {
    forall i, j :: 0 <= i <= j < |percents| ==> percents[i] <= percents[j]
  }

  lemma {:induction false} OnStaysOn(key: Text, rule: Rule, ctx: EvalContext, low: real, percents: seq<real>)
    requires rule.percent.Some? && forall i :: 0 <= i < |percents| ==> low <= percents[i]
    requires EvaluateRule(key, AtPercent(rule, low), ctx).enabled
    ensures |Rollout(key, rule, ctx, percents)| == |percents|
    ensures forall i :: 0 <= i < |percents| ==> Rollout(key, rule, ctx, percents)[i]
  {
    if percents != [] {
      RolloutIsMonotone(key, AtPercent(rule, low), ctx, percents[0]);
      OnStaysOn(key, rule, ctx, low, percents[1..]);
    }
  }

  /** A percentage that is only ever raised switches each context on at most once, and never off. */
  lemma {:induction false} RolloutNeverFlaps(key: Text, rule: Rule, ctx: EvalContext, percents: seq<real>)
    returns (k: nat)
    requires rule.percent.Some? && Ascending(percents)
    ensures k <= |percents| == |Rollout(key, rule, ctx, percents)|
    ensures forall i :: 0 <= i < |percents| ==> (Rollout(key, rule, ctx, percents)[i] <==> k <= i)
    decreases |percents|
  {
    if percents == [] {
      k := 0;
    } else if EvaluateRule(key, AtPercent(rule, percents[0]), ctx).enabled {
      k := 0;
      OnStaysOn(key, rule, ctx, percents[0], percents);
    } else {
      var later := RolloutNeverFlaps(key, rule, ctx, percents[1..]);
      k := later + 1;
    }
  }

  /** At 0 percent a rule turns on exactly the allowed, at 100 everyone but the denied; a context is
      turned on by a whole percentage exactly when it exceeds the context's fixed bucket. */
  lemma RolloutThreshold(key: Text, rule: Rule, ctx: EvalContext, n: int)
    requires rule.percent.Some? && rule.percent.value.percent == n as real
    ensures var denied := Listed(rule.deny, LookupAttr(ctx, AttrOr(rule.denyBy)));
            var allowed := Listed(rule.allow, LookupAttr(ctx, AttrOr(rule.allowBy)));
            var v := LookupAttr(ctx, AttrOr(rule.percent.value.attr));
            EvaluateRule(key, rule, ctx).enabled <==>
            !denied && (allowed || n > BucketFor(key, if v.Some? then v.value else []))
  {
  }
}
