/**
 Parsing, versions and the cache of remote configurations
 (internal/config/parser.go, internal/config/ams.go processConfig,
 internal/config/subscription.go).
 */
module ConfigCache {
  import opened Bytes

  datatype Status = OK | Invalid

  datatype Instance = Instance(typeUrl: Bytes, name: Bytes, version: Bytes, obj: Option<Bytes>, status: Status,
                               expired: bool)

  /** A received object; `typ` is absent if the type descriptor is nil. */
  datatype Object = Object(typ: Option<Bytes>, name: Bytes, version: Bytes, data: Option<Bytes>, ttl: Option<int>)

  /** The parser table: the message for a type and its data, if the type is known and the data parses. */
  type Parser = (Bytes, Bytes) -> Option<Bytes>

  // ---------- Versions ----------

  predicate AllDigits(s: Bytes) {
    s == [] || ('0' <= s[|s| - 1] <= '9' && AllDigits(s[..|s| - 1]))
  }

  function Digits(s: Bytes): nat
    requires AllDigits(s)
  {
    if s == [] then 0 else 10 * Digits(s[..|s| - 1]) + (s[|s| - 1] as int - '0' as int)
  }

  /** `strconv.Atoi` on a 64-bit machine. */
  function Atoi(s: Bytes): Option<int> {
    var signed := s != [] && (s[0] == '-' || s[0] == '+');
    var d := if signed then s[1..] else s;
    if d == [] || !AllDigits(d) then None
    else
      var n: int := if signed && s[0] == '-' then 0 - Digits(d) else Digits(d);
      if -0x8000_0000_0000_0000 <= n < 0x8000_0000_0000_0000 then Some(n) else None
  }

  function VersionNumber(v: Bytes): Option<int> {
    Atoi(TrimPrefix(v, "v"))
  }

  /**
   `CompareVersions`; `None` is an error.  Without a previous version any number is
   newer, also a negative one; with one, both must be numbers and not negative.
   */
  function CompareVersions(current: Bytes, prev: Bytes): (c: Option<int>)
    ensures TrimPrefix(prev, "v") == [] ==> (c.Some? <==> VersionNumber(current).Some?) && (c.Some? ==> c.value > 0)
    ensures TrimPrefix(prev, "v") != [] ==>
              (c.Some? <==> && VersionNumber(current).Some? && VersionNumber(prev).Some?
                            && VersionNumber(current).value >= 0 && VersionNumber(prev).value >= 0)
    ensures TrimPrefix(prev, "v") != [] && c.Some? ==>
              && (c.value < 0 <==> VersionNumber(current).value < VersionNumber(prev).value)
              && (c.value == 0 <==> VersionNumber(current) == VersionNumber(prev))
  {
    var n := VersionNumber(current);
    if n.None? then None
    else if TrimPrefix(prev, "v") == [] then Some(1)
    else
      var p := VersionNumber(prev);
      if p.None? || n.value < 0 || p.value < 0 then None
      else if n.value < p.value then Some(-1)
      else if n.value > p.value then Some(1)
      else Some(0)
  }

  // ---------- Versions as numerals ----------

  function Zeros(z: nat): (r: Bytes)
    ensures |r| == z
  {
    if z == 0 then [] else Zeros(z - 1) + "0"
  }

  /** The decimal numeral of a number, without leading zeros. */
  function Decimal(n: nat): (r: Bytes)
    ensures r != []
  {
    if n < 10 then ["0123456789"[n]] else Decimal(n / 10) + ["0123456789"[n % 10]]
  }

  /** A numeral: an optional sign, `z` leading zeros and the digits. */
  predicate Written(s: Bytes, n: int, z: nat) {
    || (n >= 0 && s == Zeros(z) + Decimal(n))
    || (n >= 0 && s == "+" + (Zeros(z) + Decimal(n)))
    || (n <= 0 && s == "-" + (Zeros(z) + Decimal(-n)))
  }

  ghost predicate Numeral(s: Bytes, n: int) {
    exists z :: Written(s, n, z)
  }

  predicate InRange(n: int) {
    -9_223_372_036_854_775_808 <= n <= 9_223_372_036_854_775_807
  }

  lemma DigitsSnoc(s: Bytes, d: int)
    requires AllDigits(s) && 0 <= d < 10
    ensures var t := s + ["0123456789"[d]]; AllDigits(t) && Digits(t) == 10 * Digits(s) + d
  {
    var t := s + ["0123456789"[d]];
    assert t[..|t| - 1] == s && "0123456789"[d] as int - '0' as int == d;
  }

  lemma {:induction false} DigitsOfZeros(z: nat)
    ensures AllDigits(Zeros(z)) && Digits(Zeros(z)) == 0
  {
    if z > 0 {
      DigitsOfZeros(z - 1);
      DigitsSnoc(Zeros(z - 1), 0);
    }
  }

  lemma {:induction false} DigitsOfDecimal(z: nat, n: nat)
    ensures AllDigits(Zeros(z) + Decimal(n)) && Digits(Zeros(z) + Decimal(n)) == n
  {
    if n < 10 {
      DigitsOfZeros(z);
      DigitsSnoc(Zeros(z), n);
    } else {
      DigitsOfDecimal(z, n / 10);
      DigitsSnoc(Zeros(z) + Decimal(n / 10), n % 10);
      assert Zeros(z) + Decimal(n) == Zeros(z) + Decimal(n / 10) + ["0123456789"[n % 10]];
    }
  }

  lemma DecimalSnoc(z: nat, m: nat, d: int) returns (y: nat)
    requires 0 <= d < 10
    ensures Zeros(z) + Decimal(m) + ["0123456789"[d]] == Zeros(y) + Decimal(10 * m + d)
  {
    if m == 0 {
      y := z + 1;
      assert Zeros(z) + "0" == Zeros(y);
    } else {
      y := z;
      assert (10 * m + d) / 10 == m && (10 * m + d) % 10 == d;
      assert Zeros(z) + Decimal(m) + ["0123456789"[d]] == Zeros(z) + (Decimal(m) + ["0123456789"[d]]);
    }
  }

  lemma {:induction false} DigitsAreDecimal(s: Bytes) returns (z: nat)
    requires s != [] && AllDigits(s)
    ensures s == Zeros(z) + Decimal(Digits(s))
  {
    var f, c := s[..|s| - 1], s[|s| - 1];
    var d := c as int - '0' as int;
    assert c == "0123456789"[d] && s == f + [c];
    if f == [] {
      z := 0;
      assert Zeros(0) == [];
    } else {
      z := DigitsAreDecimal(f);
      z := DecimalSnoc(z, Digits(f), d);
    }
  }

  lemma NotASign(s: Bytes)
    requires AllDigits(s) && s != []
    ensures '0' <= s[0] <= '9'
  {
    if |s| > 1 {
      NotASign(s[..|s| - 1]);
    }
  }

  function Ranged(n: int): Option<int> {
    if InRange(n) then Some(n) else None
  }

  predicate SignedDigits(s: Bytes, d: Bytes, n: int)
    requires AllDigits(d)
  {
    || (n == Digits(d) && (s == d || s == "+" + d))
    || (0 - n == Digits(d) && s == "-" + d)
  }

  lemma AtoiDigits(s: Bytes, d: Bytes, n: int)
    requires d != [] && AllDigits(d) && SignedDigits(s, d, n)
    ensures Atoi(s) == Ranged(n)
  {
    NotASign(d);
    assert s != d ==> s[1..] == d;
  }

  lemma AtoiWritten(s: Bytes, n: int, z: nat)
    requires Written(s, n, z)
    ensures Atoi(s) == Ranged(n)
  {
    var m := if n < 0 then -n else n;
    var d := Zeros(z) + Decimal(m);
    DigitsOfDecimal(z, m);
    assert SignedDigits(s, d, n);
    AtoiDigits(s, d, n);
  }

  /** Text converts to a number exactly if it is a numeral of it and 64 bits hold it. */
  lemma AtoiExact(s: Bytes, n: int)
    ensures Atoi(s) == Some(n) <==> Numeral(s, n) && InRange(n)
  {
    if z :| Written(s, n, z) {
      AtoiWritten(s, n, z);
    }
    if Atoi(s) == Some(n) {
      var z := WrittenFrom(s, n);
    }
  }

  lemma WrittenFrom(s: Bytes, n: int) returns (z: nat)
    requires Atoi(s) == Some(n)
    ensures Written(s, n, z) && InRange(n)
  {
    if s[0] == '-' || s[0] == '+' {
      z := DigitsAreDecimal(s[1..]);
      assert s == [s[0]] + s[1..];
    } else {
      z := DigitsAreDecimal(s);
    }
  }

  /** The version reads as the number, with or without a leading "v". */
  ghost predicate ReadsAs(version: Bytes, n: int) {
    Numeral(version, n) || ("v" <= version && Numeral(version[1..], n))
  }

  lemma NumeralStart(s: Bytes, n: int)
    requires Numeral(s, n)
    ensures !("v" <= s)
  {
    var z :| Written(s, n, z);
    var m := if n < 0 then -n else n;
    DigitsOfDecimal(z, m);
    NotASign(Zeros(z) + Decimal(m));
    assert s[0] != 'v';
  }

  lemma VersionNumberExact(version: Bytes, n: int)
    ensures VersionNumber(version) == Some(n) <==> ReadsAs(version, n) && InRange(n)
  {
    AtoiExact(TrimPrefix(version, "v"), n);
    if Numeral(version, n) {
      NumeralStart(version, n);
    }
  }

  /** Versions compare as the numbers they read as; negative ones do not compare. */
  lemma VersionsCompare(current: Bytes, a: int, prev: Bytes, b: int)
    requires ReadsAs(current, a) && InRange(a) && ReadsAs(prev, b) && InRange(b)
    ensures CompareVersions(current, prev) ==
            if a < 0 || b < 0 then None else Some(if a < b then -1 else if a > b then 1 else 0)
  {
    VersionNumberExact(current, a);
    VersionNumberExact(prev, b);
    ParsedVersionNonempty(prev);
  }

  lemma DecimalReads(n: nat)
    ensures ReadsAs(Decimal(n), n) && ReadsAs("v" + Decimal(n), n)
  {
    assert Zeros(0) + Decimal(n) == Decimal(n);
    assert Written(Decimal(n), n, 0);
    assert ("v" + Decimal(n))[1..] == Decimal(n);
  }

  /** So "v10" is newer than "v9". */
  lemma DecimalsCompare(a: nat, b: nat)
    requires InRange(a) && InRange(b)
    ensures CompareVersions("v" + Decimal(a), "v" + Decimal(b)) == Some(if a < b then -1 else if a > b then 1 else 0)
  {
    DecimalReads(a);
    DecimalReads(b);
    VersionsCompare("v" + Decimal(a), a, "v" + Decimal(b), b);
  }

  lemma ParsedVersionNonempty(v: Bytes)
    requires VersionNumber(v).Some?
    ensures TrimPrefix(v, "v") != []
  {
  }

  // ---------- Parsing ----------

  /** `Parse`: the instance, and whether it parsed. */
  function Parse(parser: Parser, obj: Option<Object>): (r: (Instance, bool))
    ensures r.1 <==> r.0.obj.Some?
    ensures r.1 <==> r.0.status.OK?
    ensures !r.0.expired
    ensures r.1 <==> && obj.Some? && obj.value.typ.Some? && obj.value.data.Some?
                     && obj.value.typ.value != [] && obj.value.name != []
                     && parser(obj.value.typ.value, obj.value.data.value).Some?
    ensures r.1 ==> r.0.obj == parser(obj.value.typ.value, obj.value.data.value)
    ensures obj.Some? && obj.value.typ.Some? ==>
              r.0.typeUrl == obj.value.typ.value && r.0.name == obj.value.name && r.0.version == obj.value.version
    ensures obj.None? || obj.value.typ.None? ==> r.0.typeUrl == [] && r.0.name == [] && r.0.version == []
  {
    if obj.None? || obj.value.typ.None? then (Instance([], [], [], None, Invalid, false), false)
    else
      var o := obj.value;
      var bad := Instance(o.typ.value, o.name, o.version, None, Invalid, false);
      if o.typ.value == [] || o.name == [] || o.data.None? then (bad, false)
      else
        var m := parser(o.typ.value, o.data.value);
        if m.None? then (bad, false) else (bad.(obj := m, status := OK), true)
  }

  function CacheKey(i: Instance): Bytes {
    i.typeUrl + ":" + i.name
  }

  /** Without a colon in the type, a cache key belongs to one type and name. */
  lemma CacheKeyInjective(i: Instance, j: Instance)
    requires ':' !in i.typeUrl && ':' !in j.typeUrl && CacheKey(i) == CacheKey(j)
    ensures i.typeUrl == j.typeUrl && i.name == j.name
  {
    SplitHead(i.typeUrl, i.name, ':');
    SplitHead(j.typeUrl, j.name, ':');
    assert i.typeUrl == Split(CacheKey(i), ':')[0] && j.typeUrl == Split(CacheKey(j), ':')[0];
    assert i.name == CacheKey(i)[|i.typeUrl| + 1..] && j.name == CacheKey(j)[|j.typeUrl| + 1..];
  }

  /** With one, two configurations can share an entry. */
  lemma CacheKeysCollide()
    ensures var i := Instance("a:b", "c", [], None, OK, false);
            var j := Instance("a", "b:c", [], None, OK, false);
            CacheKey(i) == CacheKey(j) && i.typeUrl != j.typeUrl
  {
    assert "a:b" + ":" + "c" == "a" + ":" + "b:c";
  }

  // ---------- Judging a received object ----------

  /** The instance to report, whether it enters the cache, and whether it is an error. */
  datatype Verdict = Verdict(instance: Instance, accepted: bool, error: bool)

  /** `processConfig`, up to the cache update. */
  function Judge(parser: Parser, cached: Option<Instance>, obj: Option<Object>): Verdict {
    var (instance, parsed) := Parse(parser, obj);
    var prevVersion := if cached.Some? then cached.value.version else [];
    var hasPrev := cached.Some? && cached.value.obj.Some?;
    var c := CompareVersions(instance.version, prevVersion);
    if c.None? || c.value < 0 then Verdict(instance.(status := Invalid), false, true)
    else if !parsed && hasPrev then Verdict(instance, false, true)
    else Verdict(instance, true, !parsed)
  }

  type Cache = map<Bytes, Instance>

  function Lookup(cache: Cache, k: Bytes): Option<Instance> {
    if k in cache then Some(cache[k]) else None
  }

  function KeyOf(parser: Parser, obj: Option<Object>): Bytes {
    CacheKey(Parse(parser, obj).0)
  }

  function VerdictOn(parser: Parser, cache: Cache, obj: Option<Object>): Verdict {
    Judge(parser, Lookup(cache, KeyOf(parser, obj)), obj)
  }

  /** What the loader needs to know of an object: its cache key, and the verdict on it against what is cached. */
  datatype Rules = Rules(key: Option<Object> -> Bytes, judge: (Option<Instance>, Option<Object>) -> Verdict)

  function RulesOf(parser: Parser): Rules {
    Rules(obj => KeyOf(parser, obj), (cached, obj) => Judge(parser, cached, obj))
  }

  /** A step of the loader as far as the cache goes; a tick may have nothing to expire. */
  datatype Step = Recv(obj: Option<Object>) | Expire(key: Bytes) | Idle

  function Next(parser: Parser, cache: Cache, s: Step): Cache {
    match s
    case Recv(obj) =>
      var v := VerdictOn(parser, cache, obj);
      if v.accepted then cache[KeyOf(parser, obj) := v.instance] else cache
    case Expire(k) => cache - {k}
    case Idle => cache
  }

  /** `trace[n]` is the cache before step `n`. */
  predicate Leads(parser: Parser, steps: seq<Step>, trace: seq<Cache>, n: int)
    requires 0 <= n < |steps| < |trace|
  {
    trace[n + 1] == Next(parser, trace[n], steps[n])
  }

  /** A run that starts with nothing cached. */
  ghost predicate IsRun(parser: Parser, steps: seq<Step>, trace: seq<Cache>) {
    && |trace| == |steps| + 1 && trace[0] == map[]
    && forall n {:trigger Leads(parser, steps, trace, n)} :: 0 <= n < |steps| ==> Leads(parser, steps, trace, n)
  }

  predicate SoundEntry(k: Bytes, i: Instance) {
    CacheKey(i) == k && VersionNumber(i.version).Some? && (i.status.OK? <==> i.obj.Some?)
  }

  /** What holds of every cached instance. */
  predicate Sound(cache: Cache) {
    forall k {:trigger SoundEntry(k, cache[k])} :: k in cache ==> SoundEntry(k, cache[k])
  }

  /** `j` may take the place of `i`: no lower version, and valid if `i` is. */
  predicate Supersedes(j: Instance, i: Instance) {
    && VersionNumber(i.version).Some? && VersionNumber(j.version).Some?
    && VersionNumber(i.version).value <= VersionNumber(j.version).value
    && (i.obj.Some? ==> j.obj.Some?)
  }

  lemma SupersedesTransitive(l: Instance, j: Instance, i: Instance)
    requires Supersedes(l, j) && Supersedes(j, i)
    ensures Supersedes(l, i)
  {
  }

  lemma SupersedesItself(k: Bytes, i: Instance)
    requires SoundEntry(k, i)
    ensures Supersedes(i, i)
  {
  }

  /**
   An object is accepted if and only if its version is a number, no lower than the cached
   one, which is not negative, if there is one; and it parsed, or no object is cached.
   */
  lemma AcceptedExact(parser: Parser, cached: Option<Instance>, obj: Option<Object>)
    requires cached.Some? ==> VersionNumber(cached.value.version).Some?
    ensures var i := Parse(parser, obj).0;
            Judge(parser, cached, obj).accepted <==>
              && VersionNumber(i.version).Some?
              && (cached.Some? ==>
                    && 0 <= VersionNumber(cached.value.version).value <= VersionNumber(i.version).value
                    && (cached.value.obj.Some? ==> i.obj.Some?))
  {
    if cached.Some? {
      ParsedVersionNonempty(cached.value.version);
    }
  }

  /** With versions that read as numbers: acceptance is by the numbers. */
  lemma AcceptedByNumber(parser: Parser, cached: Instance, b: int, obj: Option<Object>, a: int)
    requires ReadsAs(cached.version, b) && InRange(b) && ReadsAs(Parse(parser, obj).0.version, a) && InRange(a)
    ensures Judge(parser, Some(cached), obj).accepted <==>
            0 <= b <= a && (cached.obj.Some? ==> Parse(parser, obj).1)
  {
    VersionNumberExact(cached.version, b);
    VersionNumberExact(Parse(parser, obj).0.version, a);
    AcceptedExact(parser, Some(cached), obj);
  }

  /** What is reported: the parsed instance, as OK exactly if it parsed and was accepted, else as an error. */
  lemma ReportedExact(parser: Parser, cached: Option<Instance>, obj: Option<Object>)
    ensures var v, i := Judge(parser, cached, obj), Parse(parser, obj).0;
            && v.instance == i.(status := v.instance.status)
            && (v.instance.status.OK? <==> v.accepted && i.obj.Some?)
            && (v.error <==> !v.instance.status.OK?)
  {
  }

  lemma AcceptedSound(parser: Parser, cached: Option<Instance>, obj: Option<Object>)
    requires Judge(parser, cached, obj).accepted && (cached.Some? ==> VersionNumber(cached.value.version).Some?)
    ensures SoundEntry(KeyOf(parser, obj), Judge(parser, cached, obj).instance)
    ensures cached.Some? ==> Supersedes(Judge(parser, cached, obj).instance, cached.value)
  {
    AcceptedExact(parser, cached, obj);
  }

  /** What one step does to an entry that stays. */
  lemma NextKeeps(parser: Parser, cache: Cache, s: Step, k: Bytes)
    requires Sound(cache)
    ensures Sound(Next(parser, cache, s))
    ensures k in cache && k in Next(parser, cache, s) ==> Supersedes(Next(parser, cache, s)[k], cache[k])
  {
    if k in cache {
      assert SoundEntry(k, cache[k]);
      SupersedesItself(k, cache[k]);
    }
    if s.Recv? && VerdictOn(parser, cache, s.obj).accepted {
      assert KeyOf(parser, s.obj) in cache ==> SoundEntry(KeyOf(parser, s.obj), cache[KeyOf(parser, s.obj)]);
      AcceptedSound(parser, Lookup(cache, KeyOf(parser, s.obj)), s.obj);
    }
  }

  lemma LeadsKeeps(parser: Parser, steps: seq<Step>, trace: seq<Cache>, n: nat, k: Bytes)
    requires n < |steps| < |trace| && Leads(parser, steps, trace, n) && Sound(trace[n])
    ensures Sound(trace[n + 1])
    ensures k in trace[n] && k in trace[n + 1] ==> Supersedes(trace[n + 1][k], trace[n][k])
  {
    NextKeeps(parser, trace[n], steps[n], k);
  }

  lemma StillSupersedes(parser: Parser, steps: seq<Step>, trace: seq<Cache>, n: nat, k: Bytes, i: Instance)
    requires IsRun(parser, steps, trace) && n < |steps| && Sound(trace[n])
    requires k in trace[n] && k in trace[n + 1] && Supersedes(trace[n][k], i)
    ensures Supersedes(trace[n + 1][k], i)
  {
    assert Leads(parser, steps, trace, n);
    LeadsKeeps(parser, steps, trace, n, k);
    SupersedesTransitive(trace[n + 1][k], trace[n][k], i);
  }

  lemma {:induction false} RunSound(parser: Parser, steps: seq<Step>, trace: seq<Cache>, n: nat)
    requires IsRun(parser, steps, trace) && n < |trace|
    ensures Sound(trace[n])
  {
    if n > 0 {
      RunSound(parser, steps, trace, n - 1);
      LeadsKeeps(parser, steps, trace, n - 1, []);
    }
  }

  /** The key is cached in every state from `i` up to `j`. */
  predicate StaysCached(trace: seq<Cache>, i: nat, j: nat, k: Bytes)
    requires i <= j < |trace|
  {
    forall n :: i <= n <= j ==> k in trace[n]
  }

  /**
   While a key stays cached, over any number of steps, its version never goes down
   and a valid configuration is never replaced by an invalid one.
   */
  lemma {:induction false} VersionsNeverDecrease(parser: Parser, steps: seq<Step>, trace: seq<Cache>, i: nat, j: nat,
                                                 k: Bytes)
    requires IsRun(parser, steps, trace) && i <= j < |trace| && StaysCached(trace, i, j, k)
    ensures k in trace[i] && k in trace[j] && Supersedes(trace[j][k], trace[i][k])
    decreases j
  {
    if i < j {
      VersionsNeverDecrease(parser, steps, trace, i, j - 1, k);
      RunSound(parser, steps, trace, j - 1);
      StillSupersedes(parser, steps, trace, j - 1, k, trace[i][k]);
    } else {
      RunSound(parser, steps, trace, i);
      assert SoundEntry(k, trace[i][k]);
      SupersedesItself(k, trace[i][k]);
    }
  }

  // ---------- What subscribers are sent ----------

  /** What the receive loop sends at step `n`; expiries are sent by the ticker. */
  function SentAt(parser: Parser, steps: seq<Step>, trace: seq<Cache>, n: nat): Instance
    requires n < |steps| < |trace| && steps[n].Recv?
  {
    VerdictOn(parser, trace[n], steps[n].obj).instance
  }

  /** Only an accepted instance is sent as OK, and it is then the cached one. */
  lemma SentOkIsCached(parser: Parser, steps: seq<Step>, trace: seq<Cache>, n: nat)
    requires IsRun(parser, steps, trace) && n < |steps| && steps[n].Recv? && SentAt(parser, steps, trace, n).status.OK?
    ensures var k := KeyOf(parser, steps[n].obj);
            k in trace[n + 1] && trace[n + 1][k] == SentAt(parser, steps, trace, n)
  {
    assert Leads(parser, steps, trace, n);
  }

  predicate NotExpired(steps: seq<Step>, i: nat, j: nat, k: Bytes)
    requires i <= j <= |steps|
  {
    forall n :: i <= n < j ==> steps[n] != Expire(k)
  }

  lemma {:induction false} CachedUntilExpiry(parser: Parser, steps: seq<Step>, trace: seq<Cache>, i: nat, j: nat,
                                             k: Bytes)
    requires IsRun(parser, steps, trace) && i <= j < |trace| && k in trace[i] && NotExpired(steps, i, j, k)
    ensures StaysCached(trace, i, j, k)
    decreases j
  {
    if i < j {
      CachedUntilExpiry(parser, steps, trace, i, j - 1, k);
      assert Leads(parser, steps, trace, j - 1);
    }
  }

  /**
   Between expiries of a key, the OK instances the receive loop sends for it have
   non-decreasing versions, whatever other objects arrive in between.
   */
  lemma SentVersionsNeverDecrease(parser: Parser, steps: seq<Step>, trace: seq<Cache>, i: nat, j: nat)
    requires IsRun(parser, steps, trace) && i < j < |steps| && steps[i].Recv? && steps[j].Recv?
    requires KeyOf(parser, steps[i].obj) == KeyOf(parser, steps[j].obj)
    requires SentAt(parser, steps, trace, i).status.OK? && SentAt(parser, steps, trace, j).status.OK?
    requires NotExpired(steps, i, j, KeyOf(parser, steps[i].obj))
    ensures Supersedes(SentAt(parser, steps, trace, j), SentAt(parser, steps, trace, i))
  {
    var k := KeyOf(parser, steps[i].obj);
    SentOkIsCached(parser, steps, trace, i);
    SentOkIsCached(parser, steps, trace, j);
    CachedUntilExpiry(parser, steps, trace, i + 1, j, k);
    VersionsNeverDecrease(parser, steps, trace, i + 1, j, k);
    RunSound(parser, steps, trace, j);
    StillSupersedes(parser, steps, trace, j, k, trace[i + 1][k]);
  }

  predicate Negative(i: Instance) {
    VersionNumber(i.version).Some? && VersionNumber(i.version).value < 0
  }

  lemma NegativeKept(parser: Parser, cache: Cache, s: Step, k: Bytes)
    requires k in cache && Negative(cache[k]) && s != Expire(k)
    ensures k in Next(parser, cache, s) && Next(parser, cache, s)[k] == cache[k]
  {
    if s.Recv? && KeyOf(parser, s.obj) == k {
      AcceptedExact(parser, Some(cache[k]), s.obj);
    }
  }

  /** Once a negative version is cached nothing that arrives before its expiry replaces it. */
  lemma {:induction false} NegativeVersionSticks(parser: Parser, steps: seq<Step>, trace: seq<Cache>, i: nat, j: nat,
                                                 k: Bytes)
    requires IsRun(parser, steps, trace) && i <= j < |trace| && k in trace[i] && Negative(trace[i][k])
    requires NotExpired(steps, i, j, k)
    ensures k in trace[j] && trace[j][k] == trace[i][k]
    decreases j
  {
    if i < j {
      NegativeVersionSticks(parser, steps, trace, i, j - 1, k);
      assert Leads(parser, steps, trace, j - 1);
      NegativeKept(parser, trace[j - 1], steps[j - 1], k);
    }
  }

  lemma MinusOne()
    ensures VersionNumber("-1") == Some(-1)
  {
    assert "-1"[0] != "v"[0];
    assert TrimPrefix("-1", "v") == "-1" && "-1"[1..] == "1" && AllDigits("1") && Digits("1") == 1;
  }

  /** And one is cached if it comes first. */
  lemma NegativeVersionEnters(parser: Parser, cache: Cache, o: Object)
    requires o.version == "-1" && o.typ.Some? && KeyOf(parser, Some(o)) !in cache
    ensures var k := KeyOf(parser, Some(o));
            k in Next(parser, cache, Recv(Some(o))) && Negative(Next(parser, cache, Recv(Some(o)))[k])
  {
    MinusOne();
    AcceptedExact(parser, None, Some(o));
  }

  /** The filter of a subscription, with its status mask as a set. */
  datatype Filters = Filters(types: seq<Bytes>, statuses: set<Status>)

  /** `Matches`: an empty mask or type list does not restrict. */
  predicate Matches(i: Instance, f: Filters) {
    && (f.statuses != {} ==> i.status in f.statuses)
    && (f.types == [] || i.typeUrl in f.types)
  }

  /** `subscriptions.add` turns a zero mask into OK only. */
  function Subscribed(f: Filters): (r: Filters)
    ensures r.statuses != {}
  {
    if f.statuses == {} then f.(statuses := {OK}) else f
  }

  /** A watcher that asked for no particular status never sees a rejected configuration. */
  lemma DefaultWatchSeesAcceptedOnly(parser: Parser, steps: seq<Step>, trace: seq<Cache>, n: nat, types: seq<Bytes>)
    requires IsRun(parser, steps, trace) && n < |steps| && steps[n].Recv?
    requires Matches(SentAt(parser, steps, trace, n), Subscribed(Filters(types, {})))
    ensures var k := KeyOf(parser, steps[n].obj);
            k in trace[n + 1] && trace[n + 1][k] == SentAt(parser, steps, trace, n) && trace[n + 1][k].obj.Some?
  {
    SentOkIsCached(parser, steps, trace, n);
    RunSound(parser, steps, trace, n + 1);
  }

  /** The type an object names, if any. */
  function TypeNamed(obj: Option<Object>): Bytes {
    if obj.None? || obj.value.typ.None? then [] else obj.value.typ.value
  }

  /**
   A watcher is sent an object's instance if and only if the object's type is one it asked
   for, or it asked for none, and the status is one it asked for, or, if it asked for none,
   the object has just been cached with a configuration that parsed.
   */
  lemma WatchExact(parser: Parser, steps: seq<Step>, trace: seq<Cache>, n: nat, f: Filters)
    requires IsRun(parser, steps, trace) && n < |steps| && steps[n].Recv?
    ensures var i, k := SentAt(parser, steps, trace, n), KeyOf(parser, steps[n].obj);
            Matches(i, Subscribed(f)) <==>
              && (f.types == [] || exists t :: 0 <= t < |f.types| && f.types[t] == TypeNamed(steps[n].obj))
              && (if f.statuses == {} then i.obj.Some? && k in trace[n + 1] && trace[n + 1][k] == i
                  else i.status in f.statuses)
  {
    var i, k := SentAt(parser, steps, trace, n), KeyOf(parser, steps[n].obj);
    assert Leads(parser, steps, trace, n);
    RunSound(parser, steps, trace, n + 1);
    assert k in trace[n + 1] ==> SoundEntry(k, trace[n + 1][k]);
    ReportedExact(parser, Lookup(trace[n], k), steps[n].obj);
    assert i.typeUrl == TypeNamed(steps[n].obj);
  }
}
