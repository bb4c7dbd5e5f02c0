# csample: consistent hash sampling, modelled in Dafny

csample samples a stream of records consistently. A record is kept when the
32-bit xxhash of its key, seeded with the hash of a salt and divided by
0xFFFFFFFF, is below the sampling rate. The same key, salt, rate and hash
function name always give the same decision. Independent runs over overlapping
data therefore keep the same keys.

The model covers the three functions of `csample.py`:

- `_hash_with_salt` is `CSample.HashWithSalt`. It accepts only the name
  `"xxhash32"` and fails with `UnknownFunctionName` for any other name. It
  hashes the salt once, with xxh32's default seed 0. It returns the closure as
  the value `SaltedHash(hash, seed)`. `SaltedHash.Normalised` is the closure's
  body: `digest / 0xFFFFFFFF`, computed exactly over `real`.
- `sample_line` is `CSample.SampleLine`. The name check happens when the
  function is called, so a bad name gives `Failure` whatever the stream holds.
  Otherwise the result is the generator expression, modelled by
  `Streams.Filter` over a finite `seq`.
- `sample_tuple` is `CSample.SampleTuple`. A tuple is a sequence of fields.
  A field is a string or some other value (`Field.Other`). Only field `col` is
  inspected, and `l[col]` follows Python indexing: a negative `col` counts from
  the end. The generator is modelled as a `Run`: the tuples it yields, then the
  exception that ends it, if any. A tuple whose field `col` does not exist
  raises `IndexError`, and one whose field `col` is not a string raises
  `TypeError`, in both cases only when the generator reaches that tuple. The
  tuples kept before it have already been yielded.

The xxhash library is foreign code. Every entry point takes it as the
parameter `xxh32: (string, UInt32) -> UInt32`. Nothing is assumed about it
beyond its 32-bit range.

`Streams.Filter` is defined one record at a time, from the last record: the
output for `s + [x]` is the output for `s`, followed by `x` when `x` is kept.
This is how the generator produces its output as records arrive.

Behaviour worth noting in `csample.py`:

- The code compares `digest / 0xFFFFFFFF < rate`. `CSample.KeepRuleThreshold`
  shows that over exact reals this is `digest < rate * 0xFFFFFFFF`.
- Rate 1.0 is not special-cased. The comparison is strict, so at rate 1.0 a
  key whose digest is 0xFFFFFFFF is dropped (`CSample.SampleLineRateOne`).
- The rate is not validated. Any rate is accepted. A rate at or below 0 keeps
  nothing, and a rate above 1 keeps everything.
- The only hash function name accepted is `"xxhash32"`.

## Model

| member | source | states |
|---|---|---|
| `Streams.Filter` | csample.py:43 | the generator's output is no longer than its input, and every yielded record is an input record that passed the test |
| `Streams.FilterMembership` | csample.py:43 | a value is yielded if and only if it is in the input and passes the test |
| `Streams.FilterMultiplicity` | csample.py:43 | no record is invented or duplicated: a kept value occurs as often as in the input, a rejected value never |
| `Streams.FilterIsSubsequence` | csample.py:43 | the output is an order-preserving subsequence of the input |
| `Streams.FilterConcat` | csample.py:43 | each record is decided on its own: the output for `a + b` is the output for `a` followed by the output for `b` |
| `Streams.FilterNested` | csample.py:43 | filtering by a test that implies a second one, after filtering by the second, is filtering by the first alone |
| `Streams.FilterAll` | csample.py:43 | a test that accepts every record returns the stream unchanged |
| `Streams.FilterNone` | csample.py:43 | a test that rejects every record returns the empty stream |
| `CSample.SaltedHash.Normalised` | csample.py:49 | the normalised digest lies in [0, 1], and equals 1 exactly when the digest is 0xFFFFFFFF |
| `CSample.HashWithSalt` | csample.py:46-51 | succeeds exactly for the name "xxhash32"; any other name fails with that name; the seed is the salt's digest under seed 0, and the key hash is the supplied xxh32 |
| `CSample.KeepRuleThreshold` | csample.py:49 | `digest / 0xFFFFFFFF < rate` holds exactly when `digest < rate * 0xFFFFFFFF` |
| `CSample.SampleLine` | csample.py:30-43 | fails exactly when the function name is not "xxhash32", with that name, whatever the stream holds; otherwise yields at most as many lines as it reads |
| `CSample.SampleLineKeepsExactly` | csample.py:42-43 | a line is in the sample if and only if it is in the input and `xxh32(line, xxh32(salt, 0)) < rate * 0xFFFFFFFF` |
| `CSample.SampleLineIsSubsequence` | csample.py:43 | the sample is an order-preserving subsequence of the input; each line below the threshold occurs as often as in the input, each other line never |
| `CSample.SampleLineConsistent` | tests.py:106-111 | two streams sampled with the same rate and salt agree on every line they share |
| `CSample.SampleLineSaltOnlyThroughSeed` | csample.py:48-49 | two salts with the same seed give the same sample of every stream |
| `CSample.SampleLineConcat` | csample.py:43 | the sample of `s1 + s2` is the sample of `s1` followed by the sample of `s2` |
| `CSample.SampleLineRateMonotone` | csample.py:43 | for `low <= high`, the sample at `low` is the sample at `high` sampled again at `low`, and so is a subsequence of it |
| `CSample.SampleLineIdempotent` | csample.py:43 | sampling a sample again with the same configuration returns it unchanged |
| `CSample.SampleLineRateAtMostZero` | csample.py:43 | a rate of 0 or below yields nothing |
| `CSample.SampleLineRateAboveOne` | csample.py:43 | a rate above 1 yields the whole stream |
| `CSample.SampleLineRateOne` | csample.py:43 | at rate 1 a line is kept if and only if its digest is not 0xFFFFFFFF; a stream with no such digest comes back whole |
| `CSample.Index` | csample.py:27 | for any `col` in `[-len(t), len(t))`, `t[col]` is the field at position `col mod len(t)`, so a negative `col` wraps around to count from the end |
| `CSample.KeyError` | csample.py:27 | a tuple without a usable key raises IndexError exactly when field `col` does not exist, and TypeError exactly when it exists but is not a string |
| `CSample.TupleRun` | csample.py:27 | the generator raises only IndexError or TypeError, and raises if and only if some tuple has no string field `col`; every yielded tuple is an input tuple whose key passes the test |
| `CSample.TupleRunStopsAtFirstBadKey` | csample.py:27 | if `s[i]` is the first tuple without a string field `col` (or `i = len(s)`), the generator yields exactly the kept tuples of `s[:i]`, in order, then raises if and only if `i < len(s)`, with that tuple's IndexError or TypeError |
| `CSample.SampleTuple` | csample.py:12-27 | fails exactly when the function name is not "xxhash32", before any tuple is read; otherwise the run ends in an error if and only if some tuple has no string field `col` |
| `CSample.SampleTupleKeepsWhenLineKeeps` | csample.py:27 | when every tuple has a string field `col`, a tuple is yielded unchanged, whatever its other fields hold, if and only if `sample_line` keeps its field `col` |
| `CSample.SampleTupleMatchesSampleLine` | tests.py:55-60 | when every tuple has a string field `col`, the fields `col` of the yielded tuples are exactly the `sample_line` sample of the column |
| `CSample.SampleTupleIsSubsequence` | csample.py:27 | the yielded tuples are an order-preserving subsequence of the input |

## Left out

- The xxhash library (xxh32) is a parameter. Its algorithm and its
  distribution are not modelled. The rate-accuracy checks, which depend on
  that distribution, are therefore not stated.
- Floating point: the division by 0xFFFFFFFF and the comparison with `rate`
  are exact over `real`. IEEE rounding, NaN and infinite rates are not
  modelled.
- Streams are finite sequences. Infinite generators, and stopping early, are
  covered only through `CSample.SampleLineConcat`: the output for an input
  prefix is a prefix of the output.
- `CSample.SampleLine`: lines are strings, as the docstring at csample.py:36
  asks. A non-string line, on which the generator would raise TypeError when it
  reaches it, is not modelled.
- A non-string field is `Field.Other(id)`, an integer standing for any value
  that is not a string. Byte strings, which xxhash also accepts as keys, are
  not distinguished from other values. A `col` that is not an integer is not
  modelled.
- Python encodes a `str` key to bytes before hashing. Keys are hashed here as
  strings, and the encoding is part of the hash parameter.
- `main` (csample.py:8-9, 54-55) does nothing and is not modelled. The command
  line, `parse_arguments`, `HashSampler`, `reservoir` and `partition_line` that
  tests.py calls are not defined in `csample.py` and are not modelled.
- Determinism between two calls with equal arguments holds because every
  member is a function. It needs no lemma of its own.
  `CSample.SampleLineConsistent` states the stronger property, for two
  different streams.
