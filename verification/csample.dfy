/** Consistent sampling of csample.py: a record is kept when the salted 32-bit
    hash of its key, normalised to [0, 1], is below the sampling rate. The same
    (key, salt, rate, function name) always gives the same decision, so
    independent runs over overlapping data sample the same keys.

    The hash itself (the xxhash library's xxh32) is foreign code; every entry
    point takes it as the parameter `xxh32`, a function of a key and a seed. */
module CSample {
  import opened Streams

  /** The largest 32-bit digest, the divisor that normalises a digest. */
  const MaxDigest: int := 0xFFFF_FFFF

  type UInt32 = x: int | 0 <= x <= 0xFFFF_FFFF

  /** A seeded 32-bit string hash, such as `xxh32(key, seed=seed).intdigest()`. */
  type HashFunction = (string, UInt32) -> UInt32

  /** The seed xxh32 uses when none is given, as when the salt is hashed. */
  const DefaultSeed: UInt32 := 0

  /** The one hash function name csample accepts, also its default. */
  const XxHash32: string := "xxhash32"

  const DefaultSalt: string := "DEFAULT_SALT"

  datatype Option<T> = None | Some(value: T)

  datatype Error =
    | UnknownFunctionName(name: string)  // ValueError('Unknown function name: ...')
    | IndexError(col: int)               // a tuple has no field `col`
    | TypeError(col: int)                // field `col` of a tuple is not a string

  datatype Result<T> = Success(value: T) | Failure(error: Error)

  /** What a generator produced before it was exhausted or raised: the records
      it yielded, in order, and the exception that ended it, if any. */
  datatype Run<T> = Run(yielded: seq<T>, raised: Option<Error>)

  /** The closure `_hash_with_salt` returns: the hash with the salt's seed bound in. */
  datatype SaltedHash = SaltedHash(hash: HashFunction, seed: UInt32)
  {
    function Digest(key: string): UInt32
    {
      hash(key, seed)
    }

    /** The digest of `key` divided by 0xFFFFFFFF. */
    function Normalised(key: string): (r: real)
      ensures 0.0 <= r <= 1.0
      ensures r == 1.0 <==> Digest(key) == MaxDigest
      ensures r < 1.0 <==> Digest(key) < MaxDigest
    {
      Digest(key) as real / MaxDigest as real
    }
  }

  /** `_hash_with_salt(funcname, salt)`: checks the name, hashes the salt once
      with the default seed and binds the result as the seed of every later
      key hash. */
  function HashWithSalt(xxh32: HashFunction, funcname: string, salt: string): (r: Result<SaltedHash>)
    ensures r.Success? <==> funcname == XxHash32
    ensures r.Success? ==> r.value.hash == xxh32 && r.value.seed == xxh32(salt, DefaultSeed)
    ensures r.Failure? ==> r.error == UnknownFunctionName(funcname)
  {
    if funcname == XxHash32 then
      Success(SaltedHash(xxh32, xxh32(salt, DefaultSeed)))
    else
      Failure(UnknownFunctionName(funcname))
  }

  /** The per-record test `func(key) < rate` of both samplers. */
  function KeepRule(f: SaltedHash, rate: real): string -> bool
  {
    key => f.Normalised(key) < rate
  }

  /** The normalised comparison is the integer-threshold comparison
      `digest < rate * 0xFFFFFFFF`, computed exactly. */
  lemma KeepRuleThreshold(f: SaltedHash, rate: real, key: string)
    ensures KeepRule(f, rate)(key) <==> (f.Digest(key) as real) < rate * MaxDigest as real
  {
  }

  /** `sample_line(s, rate, funcname, salt)`. The name is checked when the
      sampler is created, before any line is read; the sampled stream is then
      produced without error. */
  function SampleLine(xxh32: HashFunction, s: seq<string>, rate: real,
                      funcname: string := XxHash32, salt: string := DefaultSalt)
    : (r: Result<seq<string>>)
    ensures r.Failure? <==> funcname != XxHash32
    ensures r.Failure? ==> r.error == UnknownFunctionName(funcname)
    ensures r.Success? ==> |r.value| <= |s|
  {
    match HashWithSalt(xxh32, funcname, salt)
    case Failure(e) => Failure(e)
    case Success(f) => Success(Filter(KeepRule(f, rate), s))
  }

  /** A line is sampled exactly when its hash under the seed xxh32(salt) lies
      below `rate * 0xFFFFFFFF`; every line is hashed with that one seed. */
  lemma SampleLineKeepsExactly(xxh32: HashFunction, s: seq<string>, rate: real, salt: string, line: string)
    ensures SampleLine(xxh32, s, rate, XxHash32, salt).Success?
    ensures line in SampleLine(xxh32, s, rate, XxHash32, salt).value
        <==> line in s && (xxh32(line, xxh32(salt, DefaultSeed)) as real) < rate * MaxDigest as real
  {
    var f := SaltedHash(xxh32, xxh32(salt, DefaultSeed));
    FilterMembership(KeepRule(f, rate), s, line);
    KeepRuleThreshold(f, rate, line);
  }

  /** The sample is an order-preserving subsequence of the input in which every
      kept line occurs as often as in the input and no other line occurs. */
  lemma SampleLineIsSubsequence(xxh32: HashFunction, s: seq<string>, rate: real, salt: string, line: string)
    ensures SampleLine(xxh32, s, rate, XxHash32, salt).Success?
    ensures IsSubsequence(SampleLine(xxh32, s, rate, XxHash32, salt).value, s)
    ensures multiset(SampleLine(xxh32, s, rate, XxHash32, salt).value)[line]
        == if (xxh32(line, xxh32(salt, DefaultSeed)) as real) < rate * MaxDigest as real
           then multiset(s)[line] else 0
  {
    var f := SaltedHash(xxh32, xxh32(salt, DefaultSeed));
    FilterIsSubsequence(KeepRule(f, rate), s);
    FilterMultiplicity(KeepRule(f, rate), s, line);
    KeepRuleThreshold(f, rate, line);
  }

  /** Consistent sampling: two streams sampled with the same rate, function and
      salt agree on every line they have in common, whatever else they hold. */
  lemma SampleLineConsistent(xxh32: HashFunction, s1: seq<string>, s2: seq<string>, rate: real, salt: string, line: string)
    requires line in s1 && line in s2
    ensures SampleLine(xxh32, s1, rate, XxHash32, salt).Success?
    ensures SampleLine(xxh32, s2, rate, XxHash32, salt).Success?
    ensures line in SampleLine(xxh32, s1, rate, XxHash32, salt).value
        <==> line in SampleLine(xxh32, s2, rate, XxHash32, salt).value
  {
    SampleLineKeepsExactly(xxh32, s1, rate, salt, line);
    SampleLineKeepsExactly(xxh32, s2, rate, salt, line);
  }

  /** The salt reaches the decisions only through its seed: two salts that hash
      to the same seed sample every stream identically. */
  lemma SampleLineSaltOnlyThroughSeed(xxh32: HashFunction, s: seq<string>, rate: real, salt1: string, salt2: string)
    requires xxh32(salt1, DefaultSeed) == xxh32(salt2, DefaultSeed)
    ensures SampleLine(xxh32, s, rate, XxHash32, salt1) == SampleLine(xxh32, s, rate, XxHash32, salt2)
  {
  }

  /** Lines are decided one by one as they arrive: the sample of a concatenation
      is the concatenation of the samples, so any prefix of the output is fixed
      by a prefix of the input. */
  lemma SampleLineConcat(xxh32: HashFunction, s1: seq<string>, s2: seq<string>, rate: real, salt: string)
    ensures SampleLine(xxh32, s1 + s2, rate, XxHash32, salt).Success?
    ensures SampleLine(xxh32, s1 + s2, rate, XxHash32, salt).value
        == SampleLine(xxh32, s1, rate, XxHash32, salt).value + SampleLine(xxh32, s2, rate, XxHash32, salt).value
  {
    FilterConcat(KeepRule(SaltedHash(xxh32, xxh32(salt, DefaultSeed)), rate), s1, s2);
  }

  /** Raising the rate only adds lines: the sample at a lower rate is the sample
      at the higher rate sampled again at the lower one, hence a subsequence of it. */
  lemma SampleLineRateMonotone(xxh32: HashFunction, s: seq<string>, low: real, high: real, salt: string)
    requires low <= high
    ensures SampleLine(xxh32, s, low, XxHash32, salt).Success?
    ensures SampleLine(xxh32, s, high, XxHash32, salt).Success?
    ensures var small, large := SampleLine(xxh32, s, low, XxHash32, salt).value, SampleLine(xxh32, s, high, XxHash32, salt).value;
      SampleLine(xxh32, large, low, XxHash32, salt).value == small && IsSubsequence(small, large)
  {
    var f := SaltedHash(xxh32, xxh32(salt, DefaultSeed));
    FilterNested(KeepRule(f, low), KeepRule(f, high), s);
    FilterIsSubsequence(KeepRule(f, low), Filter(KeepRule(f, high), s));
  }

  /** Sampling a sample at the same rate changes nothing. */
  lemma SampleLineIdempotent(xxh32: HashFunction, s: seq<string>, rate: real, salt: string)
    ensures SampleLine(xxh32, s, rate, XxHash32, salt).Success?
    ensures var kept := SampleLine(xxh32, s, rate, XxHash32, salt).value;
      SampleLine(xxh32, kept, rate, XxHash32, salt).value == kept
  {
    var keep := KeepRule(SaltedHash(xxh32, xxh32(salt, DefaultSeed)), rate);
    FilterNested(keep, keep, s);
  }

  /** A rate of 0 or below samples nothing: a normalised digest is never negative. */
  lemma SampleLineRateAtMostZero(xxh32: HashFunction, s: seq<string>, rate: real, salt: string)
    requires rate <= 0.0
    ensures SampleLine(xxh32, s, rate, XxHash32, salt) == Success([])
  {
    FilterNone(KeepRule(SaltedHash(xxh32, xxh32(salt, DefaultSeed)), rate), s);
  }

  /** A rate above 1 samples every line. */
  lemma SampleLineRateAboveOne(xxh32: HashFunction, s: seq<string>, rate: real, salt: string)
    requires rate > 1.0
    ensures SampleLine(xxh32, s, rate, XxHash32, salt) == Success(s)
  {
    FilterAll(KeepRule(SaltedHash(xxh32, xxh32(salt, DefaultSeed)), rate), s);
  }

  /** At rate exactly 1 the comparison is strict, so a line is dropped exactly
      when its digest is 0xFFFFFFFF; a stream with no such line comes back whole. */
  lemma SampleLineRateOne(xxh32: HashFunction, s: seq<string>, salt: string, line: string)
    ensures SampleLine(xxh32, s, 1.0, XxHash32, salt).Success?
    ensures line in SampleLine(xxh32, s, 1.0, XxHash32, salt).value
        <==> line in s && xxh32(line, xxh32(salt, DefaultSeed)) != MaxDigest
    ensures (forall x :: x in s ==> xxh32(x, xxh32(salt, DefaultSeed)) != MaxDigest)
        ==> SampleLine(xxh32, s, 1.0, XxHash32, salt) == Success(s)
  {
    var f := SaltedHash(xxh32, xxh32(salt, DefaultSeed));
    FilterMembership(KeepRule(f, 1.0), s, line);
    if forall x :: x in s ==> xxh32(x, f.seed) != MaxDigest {
      FilterAll(KeepRule(f, 1.0), s);
    }
  }

  // ---------------------------------------------------------------------------
  // Tuples

  /** A field of a tuple: a string, which the hash accepts, or any other value
      (an int, say), which it rejects. `id` tells such values apart. */
  datatype Field = Str(text: string) | Other(id: int)

  /** A record of `sample_tuple`: its fields, one of which is the key. */
  type Tuple = seq<Field>

  /** `t[col]` is defined: `col` counts from the front, or from the back when negative. */
  predicate HasIndex(t: Tuple, col: int)
  {
    -|t| <= col < |t|
  }

  /** The field `t[col]`, with a negative `col` counting from the end: in range,
      Python's index is `col` taken modulo the length. */
  function Index(t: Tuple, col: int): (r: Field)
    requires HasIndex(t, col)
    ensures r == t[col % |t|]
    ensures r in t
  {
    if col >= 0 then t[col] else t[|t| + col]
  }

  /** `func(t[col])` can be evaluated: the field exists and is a string. */
  predicate HasKey(t: Tuple, col: int)
  {
    HasIndex(t, col) && Index(t, col).Str?
  }

  /** The key `t[col]` of a tuple that has one. */
  function Key(t: Tuple, col: int): string
    requires HasKey(t, col)
  {
    Index(t, col).text
  }

  /** The exception `func(t[col])` raises for a tuple without a key: IndexError
      when field `col` does not exist, TypeError when it is not a string. */
  function KeyError(t: Tuple, col: int): (e: Error)
    requires !HasKey(t, col)
    ensures e == IndexError(col) <==> !HasIndex(t, col)
    ensures e == TypeError(col) <==> HasIndex(t, col)
  {
    if HasIndex(t, col) then TypeError(col) else IndexError(col)
  }

  /** The per-tuple test `func(l[col]) < rate`, for a tuple that has a key. */
  function TupleRule(f: SaltedHash, rate: real, col: int): Tuple -> bool
  {
    t => HasKey(t, col) && KeepRule(f, rate)(Key(t, col))
  }

  /** The generator `(l for l in s if func(l[col]) < rate)`, run to its end: it
      yields the kept tuples until the first tuple without a key, where it raises. */
  function TupleRun(f: SaltedHash, rate: real, col: int, s: seq<Tuple>): (r: Run<Tuple>)
    ensures r.raised == None || r.raised == Some(IndexError(col)) || r.raised == Some(TypeError(col))
    ensures r.raised == None <==> forall t :: t in s ==> HasKey(t, col)
    ensures forall t :: t in r.yielded ==> t in s && HasKey(t, col) && KeepRule(f, rate)(Key(t, col))
  {
    if s == [] then Run([], None)
    else
      var before, last := TupleRun(f, rate, col, s[..|s| - 1]), s[|s| - 1];
      assert s == s[..|s| - 1] + [last];
      if before.raised.Some? then before
      else if !HasKey(last, col) then Run(before.yielded, Some(KeyError(last, col)))
      else if KeepRule(f, rate)(Key(last, col)) then Run(before.yielded + [last], None)
      else before
  }

  /** If `s[i]` is the first tuple without a key (or `i == |s|` when there is
      none), the generator yields exactly the kept tuples of `s[..i]`, in order,
      and then raises, if and only if such a tuple exists, the exception that
      `s[i][col]` or its hash raises. */
  lemma {:induction false} TupleRunStopsAtFirstBadKey(f: SaltedHash, rate: real, col: int, s: seq<Tuple>, i: nat)
    requires i <= |s|
    requires forall j :: 0 <= j < i ==> HasKey(s[j], col)
    requires i < |s| ==> !HasKey(s[i], col)
    ensures TupleRun(f, rate, col, s).yielded == Filter(TupleRule(f, rate, col), s[..i])
    ensures TupleRun(f, rate, col, s).raised == if i < |s| then Some(KeyError(s[i], col)) else None
  {
    if s != [] {
      var init := s[..|s| - 1];
      if i < |init| {
        TupleRunStopsAtFirstBadKey(f, rate, col, init, i);
        assert init[..i] == s[..i];
      } else {
        TupleRunStopsAtFirstBadKey(f, rate, col, init, |init|);
        assert init[..|init|] == init;
        assert s[..|s|] == s;
        if i == |init| {
          assert s[..i] == init;
        }
      }
    }
  }

  /** `sample_tuple(s, rate, col, funcname, salt)`. The function name is checked
      eagerly, before any tuple is read; a missing or non-string key surfaces
      only when the generator reaches it. */
  function SampleTuple(xxh32: HashFunction, s: seq<Tuple>, rate: real, col: int,
                       funcname: string := XxHash32, salt: string := DefaultSalt)
    : (r: Result<Run<Tuple>>)
    ensures r.Failure? <==> funcname != XxHash32
    ensures r.Failure? ==> r.error == UnknownFunctionName(funcname)
    ensures r.Success? ==> (r.value.raised == None <==> forall t :: t in s ==> HasKey(t, col))
  {
    match HashWithSalt(xxh32, funcname, salt)
    case Failure(e) => Failure(e)
    case Success(f) => Success(TupleRun(f, rate, col, s))
  }

  /** The keys `t[col]` of a stream of tuples that all have one. */
  function Column(s: seq<Tuple>, col: int): (r: seq<string>)
    requires forall t :: t in s ==> HasKey(t, col)
    ensures |r| == |s|
    ensures forall j :: 0 <= j < |s| ==> r[j] == Key(s[j], col)
  {
    if s == [] then [] else Column(s[..|s| - 1], col) + [Key(s[|s| - 1], col)]
  }

  /** A tuple is yielded, unchanged, exactly when `sample_line` keeps its key
      as a one-line stream, provided every tuple has a key. The other fields
      may hold anything: they are never inspected. */
  lemma SampleTupleKeepsWhenLineKeeps(xxh32: HashFunction, s: seq<Tuple>, rate: real, col: int, salt: string, t: Tuple)
    requires forall u :: u in s ==> HasKey(u, col)
    requires t in s
    ensures SampleTuple(xxh32, s, rate, col, XxHash32, salt).Success?
    ensures SampleTuple(xxh32, s, rate, col, XxHash32, salt).value.raised == None
    ensures t in SampleTuple(xxh32, s, rate, col, XxHash32, salt).value.yielded
        <==> SampleLine(xxh32, [Key(t, col)], rate, XxHash32, salt).value == [Key(t, col)]
  {
    var f := SaltedHash(xxh32, xxh32(salt, DefaultSeed));
    TupleRunStopsAtFirstBadKey(f, rate, col, s, |s|);
    assert s[..|s|] == s;
    FilterMembership(TupleRule(f, rate, col), s, t);
    var key := Key(t, col);
    FilterMembership(KeepRule(f, rate), [key], key);
  }

  /** When every tuple has a key, the keys of the sampled tuples are the sample
      of the keys: `sample_tuple` is `sample_line` on column `col`, yielding
      whole tuples. */
  lemma SampleTupleMatchesSampleLine(xxh32: HashFunction, s: seq<Tuple>, rate: real, col: int, salt: string)
    requires forall t :: t in s ==> HasKey(t, col)
    ensures SampleTuple(xxh32, s, rate, col, XxHash32, salt).Success?
    ensures SampleTuple(xxh32, s, rate, col, XxHash32, salt).value.raised == None
    ensures Column(SampleTuple(xxh32, s, rate, col, XxHash32, salt).value.yielded, col)
         == SampleLine(xxh32, Column(s, col), rate, XxHash32, salt).value
  {
    var f := SaltedHash(xxh32, xxh32(salt, DefaultSeed));
    TupleRunStopsAtFirstBadKey(f, rate, col, s, |s|);
    assert s[..|s|] == s;
    ColumnOfFilter(f, rate, col, s);
  }

  lemma {:induction false} ColumnOfFilter(f: SaltedHash, rate: real, col: int, s: seq<Tuple>)
    requires forall t :: t in s ==> HasKey(t, col)
    ensures Column(Filter(TupleRule(f, rate, col), s), col) == Filter(KeepRule(f, rate), Column(s, col))
  {
    if s != [] {
      var init, last := s[..|s| - 1], s[|s| - 1];
      assert forall t :: t in init ==> t in s;
      ColumnOfFilter(f, rate, col, init);
      var keys := Column(s, col);
      assert keys[..|keys| - 1] == Column(init, col);
      var before := Filter(TupleRule(f, rate, col), init);
      if TupleRule(f, rate, col)(last) {
        assert (before + [last])[..|before + [last]| - 1] == before;
      }
    }
  }

  /** The tuples yielded before any exception are an order-preserving
      subsequence of the input. */
  lemma SampleTupleIsSubsequence(xxh32: HashFunction, s: seq<Tuple>, rate: real, col: int, salt: string)
    ensures SampleTuple(xxh32, s, rate, col, XxHash32, salt).Success?
    ensures IsSubsequence(SampleTuple(xxh32, s, rate, col, XxHash32, salt).value.yielded, s)
  {
    var f := SaltedHash(xxh32, xxh32(salt, DefaultSeed));
    var i := FirstBadKey(s, col);
    TupleRunStopsAtFirstBadKey(f, rate, col, s, i);
    FilterIsSubsequence(TupleRule(f, rate, col), s[..i]);
    var idx: seq<nat> :| Embeds(idx, Filter(TupleRule(f, rate, col), s[..i]), s[..i]);
    assert Embeds(idx, Filter(TupleRule(f, rate, col), s[..i]), s);
  }

  /** The position of the first tuple without a key, or `|s|`. */
  function FirstBadKey(s: seq<Tuple>, col: int): (i: nat)
    ensures i <= |s|
    ensures forall j :: 0 <= j < i ==> HasKey(s[j], col)
    ensures i < |s| ==> !HasKey(s[i], col)
  {
    if s == [] || !HasKey(s[0], col) then 0 else 1 + FirstBadKey(s[1..], col)
  }
}
