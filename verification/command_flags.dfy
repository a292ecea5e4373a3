/**
 * Command flags (`CommandFlags`): `--key value` pairs after a command, parsed
 * by the registered flags, and tab completion for them.
 *
 * A flag has aliases and a kind that decides how its value is parsed and
 * what it suggests: an integer flag (`Integer.parseInt`, suggestions "1" to
 * "99"), an enum flag over the constants of an enum (a comma-separated list
 * of constant names, suggestions every ordering of every non-empty subset of
 * the constants) or a boolean flag ("true"/"false" up to case, no
 * suggestions). Flags are kept in registration order.
 */
module CommandFlags {
  import opened Wrappers
  import opened JavaLang
  import opened Aliases

  /** The class of a flag; an enum flag carries its enum's constant names in declaration order. */
  datatype FlagKind = IntegerKind | EnumKind(constants: seq<string>) | BooleanKind

  datatype Flag = Flag(aliases: AliasList, kind: FlagKind)

  /** A parsed value: an `Integer`, a set of enum constants (an `EnumSet`), or a `Boolean`. */
  datatype FlagValue = IntValue(i: i32) | EnumValues(values: set<string>) | BoolValue(b: bool)

  /**
   * `Flag.equals`: same class and equal alias arrays. The enum class of an
   * enum flag takes no part in it.
   */
  function SameFlag(a: Flag, b: Flag): (r: bool)
    ensures r ==> a.aliases == b.aliases
    ensures a.kind == b.kind ==> (r <==> a.aliases == b.aliases)
    ensures a.kind.EnumKind? && b.kind.EnumKind? ==> (r <==> a.aliases == b.aliases)
    ensures a.kind.BooleanKind? != b.kind.BooleanKind? ==> !r
  {
    && a.aliases == b.aliases
    && (a.kind.IntegerKind? <==> b.kind.IntegerKind?)
    && (a.kind.EnumKind? <==> b.kind.EnumKind?)
  }

  // ---------------------------------------------------------------------------
  // Looking flags up

  /** The position of the first registered flag accepting `arg`. */
  function FindFlag(flags: seq<Flag>, arg: string): (r: Option<nat>)
    ensures r.Some? ==> r.value < |flags| && AcceptsAlias(flags[r.value].aliases, arg)
    ensures r.Some? ==> forall j :: 0 <= j < r.value ==> !AcceptsAlias(flags[j].aliases, arg)
    ensures r.None? <==> forall j :: 0 <= j < |flags| ==> !AcceptsAlias(flags[j].aliases, arg)
  {
    if |flags| == 0 then None
    else if AcceptsAlias(flags[0].aliases, arg) then Some(0)
    else
      match FindFlag(flags[1..], arg)
      case None => None
      case Some(k) => Some(k + 1)
  }

  /** `getFlag(arg)`: the first registered flag accepting `arg`, or null. */
  function GetFlag(flags: seq<Flag>, arg: string): (r: Option<Flag>)
    ensures r.Some? ==> r.value in flags && AcceptsAlias(r.value.aliases, arg)
    ensures r.None? <==> forall f :: f in flags ==> !AcceptsAlias(f.aliases, arg)
  {
    match FindFlag(flags, arg)
    case None => None
    case Some(k) => Some(flags[k])
  }

  /** A flag whose aliases no earlier flag accepts is found by any of its aliases, in any case. */
  lemma GetFlagFindsAlias(flags: seq<Flag>, k: nat, i: nat, arg: string)
    requires k < |flags| && i < |flags[k].aliases| && ToLower(arg) == ToLower(flags[k].aliases[i])
    requires forall j :: 0 <= j < k ==> !AcceptsAlias(flags[j].aliases, arg)
    ensures GetFlag(flags, arg) == Some(flags[k])
  {
    assert EqualsIgnoreCase(flags[k].aliases[i], arg);
  }

  // ---------------------------------------------------------------------------
  // Parsing values

  /**
   * `EnumFlag.parse`: the value is split on commas (`String.split`, so
   * trailing empty pieces are dropped), each piece upper-cased and looked up
   * among the constant names; an unknown piece throws, and repeated constants
   * are collected once.
   */
  function ParseEnum(constants: seq<string>, value: string): (r: Result<set<string>, Throwable>)
    ensures r.Ok? <==> forall p :: p in SplitOnComma(value) ==> ToUpper(p) in constants
    ensures r.Ok? ==> r.value == set p | p in SplitOnComma(value) :: ToUpper(p)
    ensures r.Err? ==> r.error.IllegalArgumentException?
  {
    LookupParts(constants, SplitOnComma(value))
  }

  /** The loop of `EnumFlag.parse` over the pieces. */
  function LookupParts(constants: seq<string>, parts: seq<string>): (r: Result<set<string>, Throwable>)
    ensures r.Ok? <==> forall p :: p in parts ==> ToUpper(p) in constants
    ensures r.Ok? ==> r.value == set p | p in parts :: ToUpper(p)
    ensures r.Err? ==> r.error.IllegalArgumentException?
  {
    if |parts| == 0 then Ok({})
    else
      var part := parts[0];
      var name := ToUpper(part);
      if name !in constants then Err(IllegalArgumentException("Unknown value: " + part))
      else
        var rest :- LookupParts(constants, parts[1..]);
        assert forall p :: p in parts <==> p == part || p in parts[1..];
        Ok({name} + rest)
  }

  /** `BooleanFlag.parse`: "true" or "false" up to case; anything else throws. */
  function ParseBoolean(value: string): (r: Result<bool, Throwable>)
    ensures r.Ok? <==> ToLower(value) == "true" || ToLower(value) == "false"
    ensures r.Ok? ==> (r.value <==> ToLower(value) == "true")
    ensures r.Err? ==> r.error.IllegalArgumentException?
  {
    if EqualsIgnoreCase(value, "true") then Ok(true)
    else if EqualsIgnoreCase(value, "false") then Ok(false)
    else Err(IllegalArgumentException("Value has to be either 'true' or 'false'"))
  }

  /** `Flag.parse`, by kind. */
  function Parse(f: Flag, value: string): (r: Result<FlagValue, Throwable>)
    ensures r.Err? ==> r.error.IllegalArgumentException?
    ensures f.kind.IntegerKind? ==> (r.Ok? <==> ParseInt(value).Some?) && (r.Ok? ==> r.value == IntValue(ParseInt(value).value))
    ensures f.kind.BooleanKind? ==> (r.Ok? <==> ParseBoolean(value).Ok?) && (r.Ok? ==> r.value == BoolValue(ParseBoolean(value).value))
    ensures f.kind.EnumKind? ==> (r.Ok? <==> ParseEnum(f.kind.constants, value).Ok?) && (r.Ok? ==> r.value == EnumValues(ParseEnum(f.kind.constants, value).value))
  {
    match f.kind
    case IntegerKind =>
      (match ParseInt(value)
       case None => Err(IllegalArgumentException(value + " is not an integer"))
       case Some(n) => Ok(IntValue(n)))
    case BooleanKind =>
      var b :- ParseBoolean(value);
      Ok(BoolValue(b))
    case EnumKind(constants) =>
      var values :- ParseEnum(constants, value);
      Ok(EnumValues(values))
  }

  // ---------------------------------------------------------------------------
  // parseFlags

  /**
   * The flag a name token selects: its lower-cased form with the first two
   * characters cut off (`substring(2)`, which throws on a shorter token).
   */
  function FlagNamed(flags: seq<Flag>, token: string): (r: Result<Flag, Throwable>)
    ensures |token| < 2 ==> r.Err? && r.error.StringIndexOutOfBoundsException?
    ensures |token| >= 2 ==> (r.Ok? <==> GetFlag(flags, ToLower(token)[2..]).Some?)
    ensures r.Ok? ==> GetFlag(flags, ToLower(token)[2..]) == Some(r.value)
    ensures |token| >= 2 && r.Err? ==> r.error.IllegalArgumentException?
  {
    var lower := ToLower(token);
    if |lower| < 2 then Err(StringIndexOutOfBoundsException("begin 2, end " + IntToString(|lower|)))
    else
      match GetFlag(flags, lower[2..])
      case None => Err(IllegalArgumentException("Unknown flag: " + token))
      case Some(f) => Ok(f)
  }

  /**
   * One step of `parseFlags`: the flag the name token selects and its value
   * parsed, as the entry to store under the flag's main alias.
   */
  function ParsePair(flags: seq<Flag>, name: string, value: string): (r: Result<(string, FlagValue), Throwable>)
    ensures r.Ok? <==> FlagNamed(flags, name).Ok? && Parse(FlagNamed(flags, name).value, value).Ok?
    ensures r.Ok? ==> r.value == (MainAlias(FlagNamed(flags, name).value.aliases), Parse(FlagNamed(flags, name).value, value).value)
    ensures r.Err? ==> r.error.IllegalArgumentException? || r.error.StringIndexOutOfBoundsException?
  {
    var f :- FlagNamed(flags, name);
    var v :- Parse(f, value);
    Ok((MainAlias(f.aliases), v))
  }

  /** A parser for one (name, value) pair, such as `ParsePair` for the registered flags. */
  type PairParser = (string, string) -> Result<(string, FlagValue), Throwable>

  /**
   * The loop of `parseFlags` over the (name, value) pairs, a trailing odd
   * token left alone; `step` parses one pair.
   */
  function ParsePairs(step: PairParser, args: seq<string>, parsed: map<string, FlagValue>): (r: Result<map<string, FlagValue>, Throwable>)
    ensures r.Ok? ==> parsed.Keys <= r.value.Keys
    ensures r.Err? ==> exists j :: 0 <= j < PairCount(args) && step(args[2 * j], args[2 * j + 1]) == Err(r.error)
    decreases |args|
  {
    if |args| < 2 then Ok(parsed)
    else
      match step(args[0], args[1])
      case Err(e) => Err(e)
      case Ok((key, value)) =>
        var r := ParsePairs(step, args[2..], parsed[key := value]);
        if r.Err? then
          var j :| 0 <= j < PairCount(args[2..]) && step(args[2..][2 * j], args[2..][2 * j + 1]) == Err(r.error);
          assert args[2..][2 * j] == args[2 * (j + 1)] && args[2..][2 * j + 1] == args[2 * (j + 1) + 1];
          r
        else r
  }

  /** `parseFlags(args)`: the parsed values keyed by main alias, or the first exception. */
  function ParseFlags(flags: seq<Flag>, args: seq<string>): (r: Result<map<string, FlagValue>, Throwable>)
    ensures |args| <= 1 ==> r == Ok(map[])
    ensures r.Err? ==> r.error.IllegalArgumentException? || r.error.StringIndexOutOfBoundsException?
  {
    var r := ParsePairs((name, value) => ParsePair(flags, name, value), args, map[]);
    if |args| == 0 then Ok(map[]) else r
  }

  /** The number of complete (name, value) pairs in `args`. */
  function PairCount(args: seq<string>): nat {
    |args| / 2
  }

  /** The `j`-th pair, parsed on its own. */
  function Pair(step: PairParser, args: seq<string>, j: nat): Result<(string, FlagValue), Throwable>
    requires j < PairCount(args)
  {
    step(args[2 * j], args[2 * j + 1])
  }

  /** The pairs after the first are the pairs of the tokens after the first two. */
  lemma PairShift(step: PairParser, args: seq<string>, j: nat)
    requires |args| >= 2 && j < PairCount(args[2..])
    ensures j + 1 < PairCount(args)
    ensures Pair(step, args, j + 1) == Pair(step, args[2..], j)
  {
    assert args[2 * (j + 1)] == args[2..][2 * j];
    assert args[2 * (j + 1) + 1] == args[2..][2 * j + 1];
  }

  /** `parseFlags` succeeds exactly when every pair names a flag and its value parses. */
  lemma {:induction false} ParsePairsSucceeds(step: PairParser, args: seq<string>, parsed: map<string, FlagValue>)
    ensures ParsePairs(step, args, parsed).Ok? <==> forall j :: 0 <= j < PairCount(args) ==> Pair(step, args, j).Ok?
    decreases |args|
  {
    if |args| >= 2 {
      var rest := args[2..];
      var first := Pair(step, args, 0);
      assert first == step(args[0], args[1]);
      forall j | 0 <= j < PairCount(rest) ensures Pair(step, args, j + 1) == Pair(step, rest, j) {
        PairShift(step, args, j);
      }
      if first.Ok? {
        ParsePairsSucceeds(step, rest, parsed[first.value.0 := first.value.1]);
        if forall j :: 0 <= j < PairCount(rest) ==> Pair(step, rest, j).Ok? {
          forall j | 0 <= j < PairCount(args) ensures Pair(step, args, j).Ok? {
            if j > 0 { PairShift(step, args, j - 1); }
          }
        }
      }
    }
  }

  /** The keys of the parsed map are the main aliases of the flags named, and nothing else. */
  lemma {:induction false} ParsePairsKeys(step: PairParser, args: seq<string>, parsed: map<string, FlagValue>, key: string)
    requires ParsePairs(step, args, parsed).Ok?
    ensures forall j :: 0 <= j < PairCount(args) ==> Pair(step, args, j).Ok?
    ensures key in ParsePairs(step, args, parsed).value <==> key in parsed || exists j :: 0 <= j < PairCount(args) && Pair(step, args, j).value.0 == key
    decreases |args|
  {
    ParsePairsSucceeds(step, args, parsed);
    if |args| >= 2 {
      var rest := args[2..];
      var first := Pair(step, args, 0);
      assert first == step(args[0], args[1]);
      ParsePairsKeys(step, rest, parsed[first.value.0 := first.value.1], key);
      if exists j :: 0 <= j < PairCount(rest) && Pair(step, rest, j).value.0 == key {
        var j :| 0 <= j < PairCount(rest) && Pair(step, rest, j).value.0 == key;
        PairShift(step, args, j);
      }
      if exists j :: 0 <= j < PairCount(args) && Pair(step, args, j).value.0 == key {
        var j :| 0 <= j < PairCount(args) && Pair(step, args, j).value.0 == key;
        if j > 0 {
          PairShift(step, args, j - 1);
        }
      }
    }
  }

  /** A flag named several times keeps the value of its last pair. */
  lemma {:induction false} ParsePairsLastWins(step: PairParser, args: seq<string>, parsed: map<string, FlagValue>, j: nat)
    requires ParsePairs(step, args, parsed).Ok?
    requires j < PairCount(args)
    ensures forall l :: 0 <= l < PairCount(args) ==> Pair(step, args, l).Ok?
    ensures Pair(step, args, j).value.0 in ParsePairs(step, args, parsed).value
    ensures (forall l :: j < l < PairCount(args) ==> Pair(step, args, l).value.0 != Pair(step, args, j).value.0) ==>
      ParsePairs(step, args, parsed).value[Pair(step, args, j).value.0] == Pair(step, args, j).value.1
    decreases |args|
  {
    ParsePairsSucceeds(step, args, parsed);
    var rest := args[2..];
    var first := Pair(step, args, 0);
    assert first == step(args[0], args[1]);
    var parsed' := parsed[first.value.0 := first.value.1];
    var key := Pair(step, args, j).value.0;
    ParsePairsKeys(step, args, parsed, key);
    ParsePairsSucceeds(step, rest, parsed');
    if forall l :: j < l < PairCount(args) ==> Pair(step, args, l).value.0 != key {
      forall l | j <= l < PairCount(rest) ensures Pair(step, rest, l).value.0 != key {
        PairShift(step, args, l);
      }
      if j == 0 {
        ParsePairsValueKept(step, rest, parsed', key);
      } else {
        PairShift(step, args, j - 1);
        ParsePairsLastWins(step, rest, parsed', j - 1);
      }
    }
  }

  /** A key no pair names keeps the value it had before. */
  lemma {:induction false} ParsePairsValueKept(step: PairParser, args: seq<string>, parsed: map<string, FlagValue>, key: string)
    requires key in parsed
    requires forall j :: 0 <= j < PairCount(args) ==> Pair(step, args, j).Ok? && Pair(step, args, j).value.0 != key
    ensures ParsePairs(step, args, parsed).Ok?
    ensures ParsePairs(step, args, parsed).value[key] == parsed[key]
    decreases |args|
  {
    ParsePairsSucceeds(step, args, parsed);
    if |args| >= 2 {
      var rest := args[2..];
      var first := Pair(step, args, 0);
      assert first == step(args[0], args[1]);
      forall l | 0 <= l < PairCount(rest) ensures Pair(step, rest, l).Ok? && Pair(step, rest, l).value.0 != key {
        PairShift(step, args, l);
      }
      ParsePairsValueKept(step, rest, parsed[first.value.0 := first.value.1], key);
    }
  }

  /** A trailing odd token is ignored. */
  lemma {:induction false} ParsePairsIgnoresOddToken(step: PairParser, args: seq<string>, parsed: map<string, FlagValue>, extra: string)
    requires |args| % 2 == 0
    ensures ParsePairs(step, args + [extra], parsed) == ParsePairs(step, args, parsed)
    decreases |args|
  {
    if |args| >= 2 {
      assert (args + [extra])[..2] == args[..2];
      assert (args + [extra])[2..] == args[2..] + [extra];
      var first := step(args[0], args[1]);
      if first.Ok? {
        ParsePairsIgnoresOddToken(step, args[2..], parsed[first.value.0 := first.value.1], extra);
      }
    }
  }

  // ---------------------------------------------------------------------------
  // Suggestions

  /** `IntegerFlag.getSuggestions`: "1" to "99" in order. */
  function IntegerSuggestions(): (r: seq<string>)
    ensures |r| == 99
    ensures forall i :: 0 <= i < 99 ==> r[i] == IntToString(i + 1)
  {
    seq(99, i requires 0 <= i < 99 => IntToString(i + 1))
  }

  /** Every integer suggestion parses, to the number it names. */
  lemma IntegerSuggestionsParse(i: nat)
    requires i < 99
    ensures Parse(Flag(["n"], IntegerKind), IntegerSuggestions()[i]) == Ok(IntValue(i + 1))
  {
    IntToStringRoundTrip(i + 1);
  }

  /** The sequences with `x` put in front of each. */
  function Prepend(x: string, seqs: seq<seq<string>>): (r: seq<seq<string>>)
    ensures |r| == |seqs|
    ensures forall i :: 0 <= i < |r| ==> r[i] == [x] + seqs[i]
  {
    seq(|seqs|, i requires 0 <= i < |seqs| => [x] + seqs[i])
  }

  /** `pool` without its `i`-th element. */
  function Without(pool: seq<string>, i: nat): (r: seq<string>)
    requires i < |pool|
    ensures |r| == |pool| - 1
  {
    pool[..i] + pool[i + 1..]
  }

  /**
   * Every ordering of every non-empty subset of `pool`, grouped by first
   * element. The enum flag builds the same collection with Guava's power
   * set and permutations, in another order.
   */
  function Arrangements(pool: seq<string>): (r: seq<seq<string>>)
    decreases |pool|, 1
  {
    ArrangementsFrom(pool, 0)
  }

  /** The arrangements of `pool` that start with `pool[i]`, `pool[i + 1]`, and so on. */
  function ArrangementsFrom(pool: seq<string>, i: nat): (r: seq<seq<string>>)
    requires i <= |pool|
    decreases |pool|, 0, |pool| - i
  {
    if i == |pool| then []
    else [[pool[i]]] + Prepend(pool[i], Arrangements(Without(pool, i))) + ArrangementsFrom(pool, i + 1)
  }

  /** A non-empty ordering of distinct elements of `pool`. */
  predicate IsArrangement(a: seq<string>, pool: seq<string>) {
    |a| > 0 && NoDupSeq(a) && forall k :: 0 <= k < |a| ==> a[k] in pool
  }

  predicate NoDupSeq(s: seq<string>) {
    forall i, j :: 0 <= i < j < |s| ==> s[i] != s[j]
  }

  lemma WithoutMembers(pool: seq<string>, i: nat)
    requires i < |pool| && NoDupSeq(pool)
    ensures NoDupSeq(Without(pool, i))
    ensures forall x :: x in Without(pool, i) <==> x in pool && x != pool[i]
  {
    var w := Without(pool, i);
    forall x | x in pool && x != pool[i] ensures x in w {
      var k :| 0 <= k < |pool| && pool[k] == x;
      if k < i { assert w[k] == x; } else { assert w[k - 1] == x; }
    }
    forall a, b | 0 <= a < b < |w| ensures w[a] != w[b] {
      var a' := if a < i then a else a + 1;
      var b' := if b < i then b else b + 1;
      assert w[a] == pool[a'] && w[b] == pool[b'];
    }
    forall x | x in w ensures x in pool && x != pool[i] {
      var k :| 0 <= k < |w| && w[k] == x;
      var k' := if k < i then k else k + 1;
      assert pool[k'] == x;
    }
  }

  /** Membership in the arrangements starting at position `i` or later. */
  lemma {:induction false} ArrangementsFromMembers(pool: seq<string>, i: nat, a: seq<string>)
    requires i <= |pool| && NoDupSeq(pool)
    ensures a in ArrangementsFrom(pool, i) <==> exists k :: i <= k < |pool| && |a| > 0 && a[0] == pool[k] && IsArrangement(a, pool)
    decreases |pool|, 0, |pool| - i
  {
    if i < |pool| {
      ArrangementsFromMembers(pool, i + 1, a);
      var x := pool[i];
      var sub := Without(pool, i);
      WithoutMembers(pool, i);
      var arr := Arrangements(sub);
      var r := [[x]] + Prepend(x, arr) + ArrangementsFrom(pool, i + 1);
      if |a| > 0 && a[0] == x {
        assert a == [x] + a[1..];
        ArrangementsMembers(sub, a[1..]);
        if |a| == 1 {
          assert a == [x] && r[0] == [x];
          assert IsArrangement(a, pool);
        } else {
          calc {
            a in Prepend(x, arr);
            <==> a[1..] in arr;
            <==> IsArrangement(a[1..], sub);
            <==> IsArrangement(a, pool);
          }
        }
      } else {
        assert a !in [[x]] + Prepend(x, arr);
      }
    }
  }

  /** The arrangements are exactly the non-empty orderings of distinct elements of the pool. */
  lemma ArrangementsMembers(pool: seq<string>, a: seq<string>)
    requires NoDupSeq(pool)
    ensures a in Arrangements(pool) <==> IsArrangement(a, pool)
    decreases |pool|, 1
  {
    ArrangementsFromMembers(pool, 0, a);
    if IsArrangement(a, pool) {
      var k :| 0 <= k < |pool| && pool[k] == a[0];
    }
  }

  /** `EnumFlag.getSuggestions`: each arrangement of the constants, lower-cased and joined by commas. */
  function EnumSuggestions(constants: seq<string>): (r: seq<string>)
    ensures |r| == |Arrangements(constants)|
    ensures forall i :: 0 <= i < |r| ==> r[i] == Spelled(Arrangements(constants)[i])
  {
    var arr := Arrangements(constants);
    seq(|arr|, i requires 0 <= i < |arr| => Spelled(arr[i]))
  }

  /** An arrangement as the enum flag spells it. */
  function Spelled(a: seq<string>): string {
    JoinComma(seq(|a|, i requires 0 <= i < |a| => ToLower(a[i])))
  }

  /** `getSuggestions` by kind: a boolean flag keeps the default, empty list. */
  function Suggestions(f: Flag): (r: seq<string>)
    ensures f.kind.BooleanKind? ==> r == []
  {
    match f.kind
    case IntegerKind => IntegerSuggestions()
    case EnumKind(constants) => EnumSuggestions(constants)
    case BooleanKind => []
  }

  /** A constant name the enum flag can read back from its lower-cased spelling. */
  predicate PlainConstant(c: string) {
    c != "" && ',' !in c && ToUpper(ToLower(c)) == c
  }

  lemma ToLowerKeepsCommas(c: string)
    ensures ',' in c <==> ',' in ToLower(c)
  {
    if ',' in c {
      var k :| 0 <= k < |c| && c[k] == ',';
      assert ToLower(c)[k] == ',';
    }
    if ',' in ToLower(c) {
      var k :| 0 <= k < |c| && ToLower(c)[k] == ',';
      assert c[k] == ',';
    }
  }

  /** Upper-casing the lower-cased names gives back the names. */
  lemma UpperOfLowered(a: seq<string>, lowered: seq<string>)
    requires |lowered| == |a| && forall k :: 0 <= k < |a| ==> ToUpper(lowered[k]) == a[k]
    ensures (set p | p in lowered :: ToUpper(p)) == (set x | x in a)
  {
    forall p | p in lowered ensures ToUpper(p) in a {
      var k :| 0 <= k < |lowered| && lowered[k] == p;
      assert a[k] == ToUpper(p);
    }
    forall x | x in a ensures exists p :: p in lowered && ToUpper(p) == x {
      var k :| 0 <= k < |a| && a[k] == x;
      assert lowered[k] in lowered;
    }
  }

  /**
   * An arrangement, spelled as a suggestion, parses back to exactly the
   * constants it lists, provided the constant names have no lower-case
   * letters and no commas.
   */
  lemma SpelledParses(constants: seq<string>, a: seq<string>)
    requires forall k :: 0 <= k < |constants| ==> PlainConstant(constants[k])
    requires IsArrangement(a, constants)
    ensures ParseEnum(constants, Spelled(a)) == Ok(set x | x in a)
  {
    var lowered := seq(|a|, k requires 0 <= k < |a| => ToLower(a[k]));
    forall k | 0 <= k < |lowered| ensures ',' !in lowered[k] && lowered[k] != "" && ToUpper(lowered[k]) == a[k] {
      ToLowerKeepsCommas(a[k]);
      var m :| 0 <= m < |constants| && constants[m] == a[k];
    }
    SplitJoinRoundTrip(lowered);
    assert SplitOnComma(Spelled(a)) == lowered;
    UpperOfLowered(a, lowered);
  }

  /** Every enum suggestion parses back to the set of constants it lists. */
  lemma EnumSuggestionsParse(constants: seq<string>, i: nat)
    requires NoDupSeq(constants) && forall k :: 0 <= k < |constants| ==> PlainConstant(constants[k])
    requires i < |EnumSuggestions(constants)|
    ensures var a := Arrangements(constants)[i];
      Parse(Flag(["e"], EnumKind(constants)), EnumSuggestions(constants)[i]) == Ok(EnumValues(set x | x in a))
  {
    var a := Arrangements(constants)[i];
    ArrangementsMembers(constants, a);
    SpelledParses(constants, a);
  }

  // ---------------------------------------------------------------------------
  // completeFlags

  /**
   * The flag a token typed earlier names for completion: only tokens starting
   * with "--" count, looked up lower-cased with every "--" removed.
   */
  function EnteredFlag(flags: seq<Flag>, token: string): (r: Option<Flag>)
    ensures r.Some? ==> StartsWith(token, "--") && r == GetFlag(flags, StripDoubleDashes(ToLower(token)))
    ensures StartsWith(token, "--") ==> r == GetFlag(flags, StripDoubleDashes(ToLower(token)))
  {
    if StartsWith(token, "--") then GetFlag(flags, StripDoubleDashes(ToLower(token))) else None
  }

  /** The `completed` list: the flags the given tokens name, in order. */
  function EnteredFlags(flags: seq<Flag>, tokens: seq<string>): (r: seq<Flag>)
    ensures forall f :: f in r <==> exists i :: 0 <= i < |tokens| && EnteredFlag(flags, tokens[i]) == Some(f)
  {
    if |tokens| == 0 then []
    else
      var rest := EnteredFlags(flags, tokens[1..]);
      assert forall i :: 1 <= i < |tokens| ==> tokens[i] == tokens[1..][i - 1];
      match EnteredFlag(flags, tokens[0])
      case None => rest
      case Some(f) => [f] + rest
  }

  /** `completed.contains(flag)`, which compares with `Flag.equals`. */
  predicate AlreadyEntered(completed: seq<Flag>, f: Flag) {
    exists c :: c in completed && SameFlag(c, f)
  }

  /** A flag as it is offered: its main alias after "--". */
  function Dashed(f: Flag): string {
    "--" + MainAlias(f.aliases)
  }

  /** Every registered flag, dashed, in registration order. */
  function AllDashed(flags: seq<Flag>): (r: seq<string>)
    ensures |r| == |flags| && forall i :: 0 <= i < |flags| ==> r[i] == Dashed(flags[i])
  {
    if |flags| == 0 then [] else [Dashed(flags[0])] + AllDashed(flags[1..])
  }

  /** `a` is `b` with some elements left out, the rest kept in their order. */
  predicate IsSubsequence(a: seq<string>, b: seq<string>)
    decreases |b|
  {
    if |a| == 0 then true
    else if |b| == 0 then false
    else (a[0] == b[0] && IsSubsequence(a[1..], b[1..])) || IsSubsequence(a, b[1..])
  }

  /**
   * The stream over the registered flags in the odd case: those not entered
   * yet, dashed, whose lower-cased form starts with the typed text as it is.
   */
  function OfferFlags(flags: seq<Flag>, completed: seq<Flag>, typed: string): (r: seq<string>)
    ensures |r| <= |flags|
    ensures forall x :: x in r <==> exists f :: f in flags && !AlreadyEntered(completed, f) && x == Dashed(f) && StartsWith(ToLower(x), typed)
    ensures IsSubsequence(r, AllDashed(flags))
  {
    if |flags| == 0 then []
    else
      var rest := OfferFlags(flags[1..], completed, typed);
      assert forall f :: f in flags <==> f == flags[0] || f in flags[1..];
      var f := flags[0];
      if !AlreadyEntered(completed, f) && StartsWith(ToLower(Dashed(f)), typed) then [Dashed(f)] + rest else rest
  }

  /** The stream over a flag's suggestions in the even case: those starting with the typed text, both lower-cased. */
  function FilterSuggestions(suggestions: seq<string>, typed: string): (r: seq<string>)
    ensures |r| <= |suggestions|
    ensures forall x :: x in r <==> x in suggestions && StartsWith(ToLower(x), ToLower(typed))
    ensures IsSubsequence(r, suggestions)
  {
    if |suggestions| == 0 then []
    else
      var rest := FilterSuggestions(suggestions[1..], typed);
      assert forall x :: x in suggestions <==> x == suggestions[0] || x in suggestions[1..];
      if StartsWith(ToLower(suggestions[0]), ToLower(typed)) then [suggestions[0]] + rest else rest
  }

  /**
   * `completeFlags(args)`. With no arguments: every flag, dashed, in
   * registration order. With an odd number: the flags not named by an
   * earlier "--" token and matching the last token. With an even number: the
   * suggestions of the flag the second-to-last token names (every "--"
   * removed) that match the last token up to case, or nothing.
   */
  function CompleteFlags(flags: seq<Flag>, args: seq<string>): (r: seq<string>)
    ensures |args| == 0 ==> |r| == |flags| && forall i :: 0 <= i < |flags| ==> r[i] == Dashed(flags[i])
    ensures |args| % 2 == 1 ==> forall x :: x in r <==>
      exists f :: f in flags && x == Dashed(f) && StartsWith(ToLower(x), args[|args| - 1])
        && !AlreadyEntered(EnteredFlags(flags, args[..|args| - 1]), f)
    ensures |args| % 2 == 1 ==> IsSubsequence(r, AllDashed(flags))
    ensures |args| > 0 && |args| % 2 == 0 ==>
      match GetFlag(flags, StripDoubleDashes(args[|args| - 2]))
      case None => r == []
      case Some(f) => (forall x :: x in r <==> x in Suggestions(f) && StartsWith(ToLower(x), ToLower(args[|args| - 1])))
                      && IsSubsequence(r, Suggestions(f))
  {
    if |args| == 0 then AllDashed(flags)
    else if |args| % 2 == 1 then
      OfferFlags(flags, EnteredFlags(flags, args[..|args| - 1]), args[|args| - 1])
    else
      match GetFlag(flags, StripDoubleDashes(args[|args| - 2]))
      case None => []
      case Some(f) => FilterSuggestions(Suggestions(f), args[|args| - 1])
  }

  /**
   * Once a flag has been typed as a "--" token, completing an odd-length
   * argument list offers only the names of flags not equal to it.
   */
  lemma EnteredFlagNotOffered(flags: seq<Flag>, args: seq<string>, i: nat, f: Flag)
    requires |args| % 2 == 1 && i < |args| - 1
    requires EnteredFlag(flags, args[i]) == Some(f)
    ensures forall x :: x in CompleteFlags(flags, args) ==> exists h :: h in flags && !SameFlag(h, f) && x == Dashed(h)
  {
    var tokens := args[..|args| - 1];
    assert tokens[i] == args[i];
    var completed := EnteredFlags(flags, tokens);
    assert f in completed;
    assert CompleteFlags(flags, args) == OfferFlags(flags, completed, args[|args| - 1]);
    CompletedNotOffered(flags, completed, args[|args| - 1], f);
  }

  /** A flag in the completed list is not offered, nor any flag equal to it. */
  lemma CompletedNotOffered(flags: seq<Flag>, completed: seq<Flag>, typed: string, f: Flag)
    requires f in completed
    ensures forall x :: x in OfferFlags(flags, completed, typed) ==> exists h :: h in flags && !SameFlag(h, f) && x == Dashed(h)
  {
    forall x | x in OfferFlags(flags, completed, typed)
      ensures exists h :: h in flags && !SameFlag(h, f) && x == Dashed(h)
    {
      var h :| h in flags && x == Dashed(h) && !AlreadyEntered(completed, h);
      assert !SameFlag(f, h);
    }
  }

  /**
   * A flag not typed yet is offered for any beginning of its dashed main
   * alias in lower case.
   */
  lemma FreshFlagOffered(flags: seq<Flag>, args: seq<string>, f: Flag)
    requires |args| % 2 == 1 && f in flags
    requires forall i :: 0 <= i < |args| - 1 ==> EnteredFlag(flags, args[i]).Some? ==> !SameFlag(EnteredFlag(flags, args[i]).value, f)
    requires StartsWith(ToLower(Dashed(f)), args[|args| - 1])
    ensures Dashed(f) in CompleteFlags(flags, args)
  {
    var tokens := args[..|args| - 1];
    var completed := EnteredFlags(flags, tokens);
    forall c | c in completed ensures !SameFlag(c, f) {
      var i :| 0 <= i < |tokens| && EnteredFlag(flags, tokens[i]) == Some(c);
      assert tokens[i] == args[i];
    }
  }
}
