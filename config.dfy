/**
 * The admin-id list of the configuration (config/config.go): a
 * comma-separated environment value parsed into 64-bit ids. Where the
 * source panics the model answers None.
 */
module Config {
  import opened Wrappers
  import opened Strings

  /** `MustInt64`: a base-10 int64, or None where the source panics. */
  function MustInt64(s: string): (r: Option<int>)
    ensures r.Some? ==> s != [] && MinInt64 <= r.value <= MaxInt64
  {
    ParseInt(s)
  }

  /** `n` zeros. */
  function Zeros(n: nat): (z: seq<int>)
    ensures |z| == n && forall i :: 0 <= i < n ==> z[i] == 0
  {
    if n == 0 then [] else Zeros(n - 1) + [0]
  }

  /** Every field parses. */
  predicate AllParse(fields: seq<string>) {
    forall i :: 0 <= i < |fields| ==> MustInt64(fields[i]).Some?
  }

  /**
   * The loop of `parseInt64Array`: appends the parsed value of each field,
   * in order, to `prefix`; None as soon as a field does not parse.
   */
  method AppendParsed(prefix: seq<int>, fields: seq<string>) returns (arr: Option<seq<int>>)
    ensures arr.Some? <==> AllParse(fields)
    ensures arr.Some? ==> |arr.value| == |prefix| + |fields| && arr.value[..|prefix|] == prefix
    ensures arr.Some? ==> forall i :: 0 <= i < |fields| ==> Some(arr.value[|prefix| + i]) == MustInt64(fields[i])
  {
    var a := prefix;
    for i := 0 to |fields|
      invariant forall k :: 0 <= k < i ==> MustInt64(fields[k]).Some?
      invariant |a| == |prefix| + i && a[..|prefix|] == prefix
      invariant forall k :: 0 <= k < i ==> Some(a[|prefix| + k]) == MustInt64(fields[k])
    {
      var x := MustInt64(fields[i]);
      if x.None? {
        return None;
      }
      a := a + [x.value];
    }
    return Some(a);
  }

  /** One zero per field, then the value of each field, in order. */
  predicate ZerosThenIds(fields: seq<string>, arr: seq<int>) {
    && |arr| == 2 * |fields|
    && (forall i :: 0 <= i < |fields| ==> arr[i] == 0)
    && (forall i :: 0 <= i < |fields| ==> Some(arr[|fields| + i]) == MustInt64(fields[i]))
  }

  /** The value of each field, in order, and nothing else. */
  predicate IdsOfFields(fields: seq<string>, arr: seq<int>) {
    |arr| == |fields| && forall i :: 0 <= i < |fields| ==> Some(arr[i]) == MustInt64(fields[i])
  }

  /**
   * `parseInt64Array` as written: `make([]int64, len(fields))` already
   * holds one zero per field, and each parsed value is appended after
   * them.
   */
  method ParseInt64Array(s: string) returns (arr: Option<seq<int>>)
    ensures var fields := Split(s, ',');
      && (arr.Some? <==> AllParse(fields))
      && (arr.Some? ==> ZerosThenIds(fields, arr.value))
  {
    var fields := Split(s, ',');
    arr := AppendParsed(Zeros(|fields|), fields);
    if arr.Some? {
      assert arr.value[..|fields|] == Zeros(|fields|);
      assert forall i :: 0 <= i < |fields| ==> arr.value[i] == arr.value[..|fields|][i];
    }
  }

  /**
   * Splitting on ',' always gives at least one field, so a successful
   * parse is never empty and the length-zero check of `LoadConfig` can
   * never fire; the list always contains 0, and repeated ids are kept.
   */
  lemma ParsedNeverEmpty(s: string, arr: seq<int>)
    requires var fields := Split(s, ',');
      && |arr| == 2 * |fields| && forall i :: 0 <= i < |fields| ==> arr[i] == 0
    ensures |arr| >= 2 && 0 in arr
  {
    assert arr[0] == 0;
  }

  /**
   * A repeated id is kept: "5,5" gives [0, 0, 5, 5] as written and
   * [5, 5] as intended.
   */
  lemma DuplicateIdsKept(written: seq<int>, intended: seq<int>)
    requires ZerosThenIds(Split("5,5", ','), written)
    requires IdsOfFields(Split("5,5", ','), intended)
    ensures written == [0, 0, 5, 5] && intended == [5, 5]
  {
    assert "5,5" == "5" + [','] + "5";
    SplitAtSep("5", "5", ',');
    assert DigitsValue("5") == 5 by {
      assert "5"[..0] == [];
    }
    ParseIntOfDigits("5");
    var fields := Split("5,5", ',');
    assert fields == ["5", "5"];
    assert written[2] == 5 && written[3] == 5 by {
      assert Some(written[2 + 0]) == MustInt64(fields[0]) && Some(written[2 + 1]) == MustInt64(fields[1]);
    }
    assert written[0] == 0 && written[1] == 0;
    assert intended[0] == 5 && intended[1] == 5 by {
      assert Some(intended[0]) == MustInt64(fields[0]) && Some(intended[1]) == MustInt64(fields[1]);
    }
  }

  /** An empty field, or one with a space, makes the source panic. */
  lemma MustInt64Rejects(s: string)
    requires s == [] || exists i :: 0 <= i < |s| && s[i] == ' '
    ensures MustInt64(s).None?
  {
  }

  // ----- the list as intended -----

  /** One parsed id per field, in input order, and nothing else. */
  method ParseAdminIDs(s: string) returns (arr: Option<seq<int>>)
    ensures var fields := Split(s, ',');
      && (arr.Some? <==> AllParse(fields))
      && (arr.Some? ==> IdsOfFields(fields, arr.value))
  {
    var fields := Split(s, ',');
    arr := AppendParsed([], fields);
  }
}
