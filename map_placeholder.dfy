/**
 * The `map` placeholder: a table from configuration keys to values, optionally
 * case-insensitive, looked up by the first argument of a request.
 */
module MapPlaceholders {
  import opened Wrappers
  import opened JavaStrings
  import opened Substitution

  /**
   * The configuration section: `ignorecase`, `default` and the `values` subsection (its
   * keys in iteration order with their raw values, None for null), each possibly absent.
   */
  datatype MapSection = MapSection(
    ignorecase: Option<bool>,
    default: Option<String>,
    values: Option<seq<(String, Option<String>)>>)

  /** `normalizeKey`: keys are compared lower-cased when the table ignores case. */
  function NormalizeKey(ignoreCase: bool, key: String): (r: String)
    ensures |r| == |key|
    ensures !ignoreCase ==> r == key
    ensures ignoreCase ==> forall i :: 0 <= i < |r| ==> !('A' <= r[i] <= 'Z')
  {
    if ignoreCase then Lower(key) else key
  }

  /** Normalising twice is normalising once. */
  lemma NormalizeIdempotent(ignoreCase: bool, key: String)
    ensures NormalizeKey(ignoreCase, NormalizeKey(ignoreCase, key)) == NormalizeKey(ignoreCase, key)
  {
  }

  /** With `ignorecase`, two keys fall together exactly when they differ only in case. */
  lemma NormalizeMatchesIgnoringCase(a: String, b: String)
    ensures NormalizeKey(true, a) == NormalizeKey(true, b) <==> EqualsIgnoreCase(a, b)
  {
    if EqualsIgnoreCase(a, b) {
      assert forall i :: 0 <= i < |a| ==> NormalizeKey(true, a)[i] == NormalizeKey(true, b)[i];
    }
    if NormalizeKey(true, a) == NormalizeKey(true, b) {
      assert forall i :: 0 <= i < |a| ==> LowerChar(a[i]) == NormalizeKey(true, a)[i];
    }
  }

  /** The `HashMap` the constructor fills: one `put` per pair, so later pairs overwrite. */
  function Table(ignoreCase: bool, cfg: seq<(String, Option<String>)>): map<String, String>
    decreases |cfg|
  {
    if cfg == [] then map[]
    else
      var (key, raw) := cfg[|cfg| - 1];
      Table(ignoreCase, cfg[..|cfg| - 1])[NormalizeKey(ignoreCase, key) := raw.GetOr("")]
  }

  /** Every configuration key is in the table, normalised. */
  lemma {:induction false} TableHasEveryKey(ignoreCase: bool, cfg: seq<(String, Option<String>)>, i: nat)
    requires i < |cfg|
    ensures NormalizeKey(ignoreCase, cfg[i].0) in Table(ignoreCase, cfg)
    decreases |cfg|
  {
    if i < |cfg| - 1 {
      var init := cfg[..|cfg| - 1];
      assert init[i] == cfg[i];
      TableHasEveryKey(ignoreCase, init, i);
    }
  }

  /** The table has no key that no configuration key normalises to. */
  lemma {:induction false} TableKeysFromConfig(ignoreCase: bool, cfg: seq<(String, Option<String>)>, k: String)
    requires k in Table(ignoreCase, cfg)
    ensures exists i :: 0 <= i < |cfg| && NormalizeKey(ignoreCase, cfg[i].0) == k
    decreases |cfg|
  {
    var init := cfg[..|cfg| - 1];
    if k != NormalizeKey(ignoreCase, cfg[|cfg| - 1].0) {
      TableKeysFromConfig(ignoreCase, init, k);
      var i :| 0 <= i < |init| && NormalizeKey(ignoreCase, init[i].0) == k;
      assert cfg[i] == init[i];
    }
  }

  /** The last configuration pair whose key normalises to `k` decides the value. */
  lemma {:induction false} TableLastWins(ignoreCase: bool, cfg: seq<(String, Option<String>)>, i: nat)
    requires i < |cfg|
    requires forall j :: i < j < |cfg| ==> NormalizeKey(ignoreCase, cfg[j].0) != NormalizeKey(ignoreCase, cfg[i].0)
    ensures NormalizeKey(ignoreCase, cfg[i].0) in Table(ignoreCase, cfg)
    ensures Table(ignoreCase, cfg)[NormalizeKey(ignoreCase, cfg[i].0)] == cfg[i].1.GetOr("")
    decreases |cfg|
  {
    TableHasEveryKey(ignoreCase, cfg, i);
    if i < |cfg| - 1 {
      var init := cfg[..|cfg| - 1];
      assert init[i] == cfg[i];
      TableLastWins(ignoreCase, init, i);
    }
  }

  /** With `ignorecase`, a request in any casing of a configured key finds it. */
  lemma AnyCasingFindsKey(cfg: seq<(String, Option<String>)>, i: nat, request: String)
    requires i < |cfg| && EqualsIgnoreCase(cfg[i].0, request)
    ensures NormalizeKey(true, request) in Table(true, cfg)
  {
    TableHasEveryKey(true, cfg, i);
    NormalizeMatchesIgnoringCase(cfg[i].0, request);
  }

  /** Without `ignorecase`, a request finds a value only under a key spelled exactly so. */
  lemma ExactKeyRequired(cfg: seq<(String, Option<String>)>, request: String)
    requires NormalizeKey(false, request) in Table(false, cfg)
    ensures exists i :: 0 <= i < |cfg| && cfg[i].0 == request
  {
    TableKeysFromConfig(false, cfg, request);
  }

  /** The filling loop of the constructor. */
  method FillTable(ignoreCase: bool, cfg: seq<(String, Option<String>)>) returns (tmp: map<String, String>)
    ensures tmp == Table(ignoreCase, cfg)
  {
    tmp := map[];
    for i := 0 to |cfg|
      invariant tmp == Table(ignoreCase, cfg[..i])
    {
      assert cfg[..i + 1][..i] == cfg[..i];
      var (key, raw) := cfg[i];
      var value := raw.GetOr("");
      tmp := tmp[NormalizeKey(ignoreCase, key) := value];
    }
    assert cfg[..|cfg|] == cfg;
  }

  class MapPlaceholder {
    const ignoreCase: bool
    const defaultValue: String
    const table: map<String, String>

    constructor (section: MapSection)
      ensures ignoreCase == section.ignorecase.GetOr(false)
      ensures defaultValue == section.default.GetOr("")
      ensures table == if section.values.None? then map[] else Table(ignoreCase, section.values.value)
    {
      ignoreCase := section.ignorecase.GetOr(false);
      defaultValue := section.default.GetOr("");
      var tmp := map[];
      if section.values.Some? {
        tmp := FillTable(section.ignorecase.GetOr(false), section.values.value);
      }
      table := tmp;
    }

    /** `getResult`: the value under the normalised first argument, then substitution. */
    method GetResult(args: seq<String>) returns (r: String)
      ensures |args| == 0 ==> r == defaultValue
      ensures |args| > 0 && (NormalizeKey(ignoreCase, args[0]) !in table ||
                             table[NormalizeKey(ignoreCase, args[0])] == [])
              ==> r == defaultValue
      ensures |args| > 0 && NormalizeKey(ignoreCase, args[0]) in table &&
              table[NormalizeKey(ignoreCase, args[0])] != [] ==>
                r == Substituted(table[NormalizeKey(ignoreCase, args[0])], args)
    {
      if |args| == 0 {
        return defaultValue;
      }
      var key := NormalizeKey(ignoreCase, args[0]);
      if key !in table || table[key] == [] {
        return defaultValue;
      }
      var value := table[key];
      if |args| == 1 {
        return value;
      }
      r := ApplyArgs(value, args);
    }
  }
}
