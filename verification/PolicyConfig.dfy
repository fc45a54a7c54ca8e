/** Loading the policy: files merged over each other, the old whitelist migrated, defaults filled in. */
module PolicyConfig {
  import opened Wrappers
  import opened Sequences
  import opened PyValues

  // ---------- Merging policy files ----------

  /** `merge_policy_files`, on any two values: dictionaries entry by entry, anything else replaced. */
  function MergeValue(a: PyValue, b: PyValue): PyValue
    decreases b
  {
    if a.PyDict? && b.PyDict? then
      PyDict(map k | k in a.entries.Keys + b.entries.Keys ::
          if k !in b.entries then a.entries[k]
          else if k in a.entries then MergeValue(a.entries[k], b.entries[k])
          else b.entries[k])
    else b
  }

  method MergePolicyFiles(base: Dict, extra: Dict) returns (merged: Dict)
    ensures PyDict(merged) == MergeValue(PyDict(base), PyDict(extra))
    decreases PyDict(extra)
  {
    hide MergeValue, SoFar;
    merged := base;
    var todo := extra.Keys;
    SoFarAtFirst(base, extra);
    while todo != {}
      invariant todo <= extra.Keys && SoFar(base, extra, todo, merged)
      decreases |todo|
    {
      var key :| key in todo;
      var value := extra[key];
      SoFarAt(base, extra, todo, merged, key);
      var result: PyValue;
      if key in merged && merged[key].PyDict? && value.PyDict? {
        var inner := MergePolicyFiles(merged[key].entries, value.entries);
        result := PyDict(inner);
      } else {
        MergeReplaces(if key in merged then merged[key] else PyNone, value);
        result := value;
      }
      SoFarStep(base, extra, todo, merged, key, result);
      merged := merged[key := result];
      todo := todo - {key};
    }
    SoFarIsMerge(base, extra, merged);
  }

  /** The entries outside `todo` are merged, those in it are still the base's. */
  ghost predicate SoFar(base: Dict, extra: Dict, todo: set<string>, merged: Dict) {
    && merged.Keys == base.Keys + (extra.Keys - todo)
    && (forall k :: k in base && (k in todo || k !in extra) ==> merged[k] == base[k])
    && (forall k :: k in extra && k !in todo ==>
        merged[k] == if k in base then MergeValue(base[k], extra[k]) else extra[k])
  }

  lemma SoFarAtFirst(base: Dict, extra: Dict)
    ensures SoFar(base, extra, extra.Keys, base)
  {
  }

  lemma SoFarAt(base: Dict, extra: Dict, todo: set<string>, merged: Dict, key: string)
    requires SoFar(base, extra, todo, merged) && key in todo && todo <= extra.Keys
    ensures key in merged <==> key in base
    ensures key in base ==> merged[key] == base[key]
  {
  }

  lemma SoFarStep(base: Dict, extra: Dict, todo: set<string>, merged: Dict, key: string, value: PyValue)
    requires SoFar(base, extra, todo, merged) && key in todo && todo <= extra.Keys
    requires value == if key in base then MergeValue(base[key], extra[key]) else extra[key]
    ensures SoFar(base, extra, todo - {key}, merged[key := value])
  {
    hide MergeValue;
  }

  lemma MergeReplaces(a: PyValue, b: PyValue)
    requires !(a.PyDict? && b.PyDict?)
    ensures MergeValue(a, b) == b
  {
  }

  lemma SoFarIsMerge(base: Dict, extra: Dict, merged: Dict)
    requires SoFar(base, extra, {}, merged)
    ensures PyDict(merged) == MergeValue(PyDict(base), PyDict(extra))
  {
    var m := MergeValue(PyDict(base), PyDict(extra)).entries;
    assert m.Keys == merged.Keys;
    assert forall k :: k in m ==> m[k] == merged[k];
  }

  /** The value at a path of keys. */
  ghost function Lookup(v: PyValue, path: seq<string>): Option<PyValue>
    decreases |path|
  {
    if path == [] then Some(v)
    else if v.PyDict? && path[0] in v.entries then Lookup(v.entries[path[0]], path[1..])
    else None
  }

  /** Somewhere above the end of the path stands a value that is no dictionary. */
  ghost predicate EndsAbove(v: PyValue, path: seq<string>)
    decreases |path|
  {
    path != [] && (!v.PyDict? || (path[0] in v.entries && EndsAbove(v.entries[path[0]], path[1..])))
  }

  /** Right-biased at every path: what the extra file says holds, and what it does not speak of stays. */
  lemma {:induction false} MergedAt(a: PyValue, b: PyValue, path: seq<string>)
    ensures Lookup(MergeValue(a, b), path) ==
      if Lookup(b, path).Some?
      then Some(if Lookup(a, path).Some?
                then MergeValue(Lookup(a, path).value, Lookup(b, path).value)
                else Lookup(b, path).value)
      else if EndsAbove(b, path) then None else Lookup(a, path)
    decreases |path|
  {
    if path != [] && a.PyDict? && b.PyDict? {
      var k := path[0];
      if k in a.entries && k in b.entries {
        MergedAt(a.entries[k], b.entries[k], path[1..]);
      } else if k in b.entries {
        OutOfReach(b.entries[k], path[1..]);
      }
    } else if path != [] {
      OutOfReach(b, path);
    }
  }

  lemma {:induction false} OutOfReach(b: PyValue, path: seq<string>)
    ensures EndsAbove(b, path) ==> Lookup(b, path).None?
    decreases |path|
  {
    if path != [] && b.PyDict? && path[0] in b.entries {
      OutOfReach(b.entries[path[0]], path[1..]);
    }
  }

  /** Every key of `a` is a key of `c`, in every dictionary the two share. */
  ghost predicate Covers(c: PyValue, a: PyValue)
    decreases a
  {
    a.PyDict? && c.PyDict? ==>
      forall k :: k in a.entries ==> k in c.entries && Covers(c.entries[k], a.entries[k])
  }

  /** A file leaves nothing of the base exactly if it covers it. */
  lemma {:induction false} MergeIsExtraIffCovered(a: PyValue, c: PyValue)
    ensures MergeValue(a, c) == c <==> Covers(c, a)
    decreases a
  {
    if a.PyDict? && c.PyDict? {
      var m := MergeValue(a, c).entries;
      forall k | k in a.entries && k in c.entries
        ensures m[k] == c.entries[k] <==> Covers(c.entries[k], a.entries[k])
      {
        MergeIsExtraIffCovered(a.entries[k], c.entries[k]);
      }
      if Covers(c, a) {
        assert m == c.entries;
      } else {
        var k :| k in a.entries && !(k in c.entries && Covers(c.entries[k], a.entries[k]));
        assert k in m && (k in c.entries ==> m[k] != c.entries[k]);
      }
    }
  }

  lemma {:induction false} CoversItself(a: PyValue)
    ensures Covers(a, a)
    decreases a
  {
    if a.PyDict? {
      forall k | k in a.entries ensures Covers(a.entries[k], a.entries[k]) {
        CoversItself(a.entries[k]);
      }
    }
  }

  lemma {:induction false} MergedCovers(a: PyValue, b: PyValue)
    ensures Covers(MergeValue(a, b), b)
    decreases b
  {
    if a.PyDict? && b.PyDict? {
      forall k | k in b.entries ensures Covers(MergeValue(a, b).entries[k], b.entries[k]) {
        if k in a.entries {
          MergedCovers(a.entries[k], b.entries[k]);
        } else {
          CoversItself(b.entries[k]);
        }
      }
    } else {
      CoversItself(b);
    }
  }

  /** The empty file on either side, and the same file twice, change nothing. */
  lemma MergeUnits(a: Dict)
    ensures MergeValue(PyDict(a), PyDict(map[])) == PyDict(a)
    ensures MergeValue(PyDict(map[]), PyDict(a)) == PyDict(a)
    ensures MergeValue(PyDict(a), PyDict(a)) == PyDict(a)
  {
    var none: Dict := map[];
    assert MergeValue(PyDict(a), PyDict(none)).entries == a;
    assert MergeValue(PyDict(none), PyDict(a)).entries == a;
    CoversItself(PyDict(a));
    MergeIsExtraIffCovered(PyDict(a), PyDict(a));
  }

  /** Some path is a dictionary in the base, something else in the second file, and a dictionary in the
      third that leaves something of the base. */
  ghost predicate Clash(a: PyValue, b: PyValue, c: PyValue)
    decreases b
  {
    a.PyDict? && c.PyDict? &&
      if b.PyDict?
      then exists k :: k in a.entries && k in b.entries && k in c.entries
                       && Clash(a.entries[k], b.entries[k], c.entries[k])
      else !Covers(c, a)
  }

  /** The order of merging matters exactly on a clash. */
  lemma {:induction false} MergeAssociativeIff(a: PyValue, b: PyValue, c: PyValue)
    ensures MergeValue(MergeValue(a, b), c) == MergeValue(a, MergeValue(b, c)) <==> !Clash(a, b, c)
    decreases b
  {
    if a.PyDict? && c.PyDict? {
      if b.PyDict? {
        var l, r := MergeValue(MergeValue(a, b), c).entries, MergeValue(a, MergeValue(b, c)).entries;
        assert l.Keys == r.Keys;
        forall k | k in l
          ensures l[k] == r[k] <==> !(k in a.entries && k in b.entries && k in c.entries
                                      && Clash(a.entries[k], b.entries[k], c.entries[k]))
        {
          if k in a.entries && k in b.entries && k in c.entries {
            MergeAssociativeIff(a.entries[k], b.entries[k], c.entries[k]);
          }
        }
        if !Clash(a, b, c) {
          assert l == r;
        }
      } else {
        MergeIsExtraIffCovered(a, c);
      }
    }
  }

  /** Merging a file in again changes nothing: a later run over the same files is the first one. */
  lemma {:induction false} MergeAgain(a: PyValue, b: PyValue)
    ensures MergeValue(MergeValue(a, b), b) == MergeValue(a, b)
    decreases b
  {
    if a.PyDict? && b.PyDict? {
      var m := MergeValue(a, b);
      forall k | k in b.entries ensures MergeValue(m.entries[k], b.entries[k]) == m.entries[k] {
        if k in a.entries {
          MergeAgain(a.entries[k], b.entries[k]);
        } else {
          CoversItself(b.entries[k]);
          MergeIsExtraIffCovered(b.entries[k], b.entries[k]);
        }
      }
      assert MergeValue(m, b).entries == m.entries;
    } else {
      CoversItself(b);
      MergeIsExtraIffCovered(b, b);
    }
  }

  /** A clash shows at a path. */
  ghost predicate ClashesAt(a: PyValue, b: PyValue, c: PyValue, path: seq<string>) {
    var x, y, z := Lookup(a, path), Lookup(b, path), Lookup(c, path);
    && x.Some? && y.Some? && z.Some?
    && x.value.PyDict? && !y.value.PyDict? && z.value.PyDict? && !Covers(z.value, x.value)
  }

  lemma {:induction false} ClashIffAtPath(a: PyValue, b: PyValue, c: PyValue)
    ensures Clash(a, b, c) <==> exists path :: ClashesAt(a, b, c, path)
    decreases b
  {
    hide Covers;
    if Clash(a, b, c) {
      if b.PyDict? {
        var k :| k in a.entries && k in b.entries && k in c.entries
          && Clash(a.entries[k], b.entries[k], c.entries[k]);
        ClashIffAtPath(a.entries[k], b.entries[k], c.entries[k]);
        var path :| ClashesAt(a.entries[k], b.entries[k], c.entries[k], path);
        ClashBelow(a, b, c, [k] + path);
      } else {
        assert ClashesAt(a, b, c, []);
      }
    }
    if path :| ClashesAt(a, b, c, path) {
      ClashBelow(a, b, c, path);
      if path != [] {
        var k := path[0];
        ClashIffAtPath(a.entries[k], b.entries[k], c.entries[k]);
      }
    }
  }

  lemma ClashBelow(a: PyValue, b: PyValue, c: PyValue, path: seq<string>)
    ensures path != [] ==>
      (ClashesAt(a, b, c, path) <==>
       && a.PyDict? && b.PyDict? && c.PyDict?
       && path[0] in a.entries && path[0] in b.entries && path[0] in c.entries
       && ClashesAt(a.entries[path[0]], b.entries[path[0]], c.entries[path[0]], path[1..]))
    ensures path == [] ==> (ClashesAt(a, b, c, path) <==> a.PyDict? && !b.PyDict? && c.PyDict? && !Covers(c, a))
  {
    hide Covers;
  }

  /** A clash there is: the base's settings survive in one order and are gone in the other. */
  lemma ClashExample()
    ensures var a, b, c := PyDict(map["t" := PyDict(map["x" := PyNone])]), PyDict(map["t" := PyNone]),
              PyDict(map["t" := PyDict(map[])]);
      Lookup(MergeValue(MergeValue(a, b), c), ["t", "x"]) == None
      && Lookup(MergeValue(a, MergeValue(b, c)), ["t", "x"]) == Some(PyNone)
  {
    var e: Dict := map[];
    var a, b := PyDict(map["t" := PyDict(map["x" := PyNone])]), PyDict(map["t" := PyNone]);
    var c := PyDict(map["t" := PyDict(e)]);
    assert ["t", "x"][1..] == ["x"] && ["x"][1..] == [];
    assert MergeValue(a, b) == b && MergeValue(b, c) == c;
    assert MergeValue(PyDict(map["x" := PyNone]), PyDict(e)).entries == map["x" := PyNone];
  }

  // ---------- The files in turn ----------

  function MergeFile(policy: Dict, file: Option<Dict>): Dict {
    if file.None? then policy else MergeValue(PyDict(policy), PyDict(file.value)).entries
  }

  /** The loop over the extra files; a file that does not exist is passed over. */
  function MergeFiles(base: Dict, files: seq<Option<Dict>>): Dict {
    if files == [] then base else MergeFile(MergeFiles(base, files[..|files| - 1]), files[|files| - 1])
  }

  /** The extra files merged among themselves. */
  ghost function Bundle(files: seq<Option<Dict>>): Option<Dict> {
    if files == [] then None
    else
      var front, last := Bundle(files[..|files| - 1]), files[|files| - 1];
      if last.None? then front else if front.None? then last else Some(MergeFile(front.value, last))
  }

  ghost predicate NoClashAlong(base: Dict, files: seq<Option<Dict>>) {
    forall i :: 0 <= i < |files| && files[i].Some? && Bundle(files[..i]).Some? ==>
      !Clash(PyDict(base), PyDict(Bundle(files[..i]).value), PyDict(files[i].value))
  }

  /** Without clashes the extra files can be merged beforehand and laid over the base at once. */
  lemma {:induction false} FilesCanBeBundled(base: Dict, files: seq<Option<Dict>>)
    requires NoClashAlong(base, files)
    ensures MergeFiles(base, files) == MergeFile(base, Bundle(files))
  {
    hide MergeValue, Clash;
    if files != [] {
      var n := |files| - 1;
      var front, last := files[..n], files[n];
      forall i | 0 <= i < n ensures front[..i] == files[..i] {}
      FilesCanBeBundled(base, front);
      if last.Some? && Bundle(front).Some? {
        var b := Bundle(front).value;
        MergeAssociativeIff(PyDict(base), PyDict(b), PyDict(last.value));
        MergesToDict(base, b);
        MergesToDict(b, last.value);
      }
    }
  }

  lemma MergesToDict(a: Dict, b: Dict)
    ensures MergeValue(PyDict(a), PyDict(b)).PyDict?
  {
  }

  // ---------- Defaults ----------

  const TRUSTLINE_DEFAULTS: Dict := map[
    "mode" := PyStr("xrpl_lookup"), "require_trustline" := PyBool(false),
    "block_if_no_trustline" := PyBool(false), "allowed_currencies" := PyList([PyStr("XRP")]),
    "allowed_issuers" := PyList([]), "require_authorized_trustline" := PyBool(false),
    "allow_xrp_without_trustline" := PyBool(true)]

  const DESTINATION_DEFAULTS: Dict := map[
    "require_account_exists" := PyBool(true), "allow_new_destination" := PyBool(true),
    "new_destination_risk_score" := PyNum(20.0), "block_if_account_not_found" := PyBool(true)]

  const HISTORY_DEFAULTS: Dict := map[
    "enable_account_tx_lookup" := PyBool(false), "detect_new_destination" := PyBool(true)]

  const SECTIONS: seq<string> := ["trustline_policy", "destination_policy", "history_policy"]

  function DefaultsOf(section: string): Dict {
    if section == "trustline_policy" then TRUSTLINE_DEFAULTS
    else if section == "destination_policy" then DESTINATION_DEFAULTS
    else HISTORY_DEFAULTS
  }

  /** One turn of the loop in `_ensure_policy_defaults`. */
  function WithSection(policy: Dict, section: string): Dict {
    var existing := Get(policy, section, PyNone);
    if existing.PyDict? then policy[section := PyDict(DefaultsOf(section) + existing.entries)]
    else if existing.PyNone? then policy[section := PyDict(DefaultsOf(section))]
    else policy
  }

  function WithDefaults(policy: Dict): Dict {
    WithSection(WithSection(WithSection(policy, SECTIONS[0]), SECTIONS[1]), SECTIONS[2])
  }

  /** Defaults fill gaps and nothing else: sections that are something else are left, as are all other keys. */
  lemma DefaultsFillGaps(policy: Dict, key: string)
    ensures key !in SECTIONS ==> Get(WithDefaults(policy), key, PyNone) == Get(policy, key, PyNone)
    ensures key !in SECTIONS ==> (key in WithDefaults(policy) <==> key in policy)
    ensures key in SECTIONS ==>
      var before, after := Get(policy, key, PyNone), Get(WithDefaults(policy), key, PyNone);
      if before.PyDict? || before.PyNone? then
        && after.PyDict?
        && after.entries.Keys == DefaultsOf(key).Keys + (if before.PyDict? then before.entries.Keys else {})
        && forall k :: k in after.entries ==>
            after.entries[k] == if before.PyDict? && k in before.entries then before.entries[k] else DefaultsOf(key)[k]
      else after == before
  {
    hide DefaultsOf;
    SectionFillsGaps(policy, SECTIONS[0]);
    SectionFillsGaps(WithSection(policy, SECTIONS[0]), SECTIONS[1]);
    SectionFillsGaps(WithSection(WithSection(policy, SECTIONS[0]), SECTIONS[1]), SECTIONS[2]);
  }

  lemma SectionFillsGaps(policy: Dict, section: string)
    ensures WithSection(policy, section) == policy[section := Get(WithSection(policy, section), section, PyNone)]
      || WithSection(policy, section) == policy
  {
  }

  /** The values that are filled in for sections that are absent or empty. */
  lemma DefaultValues(policy: Dict)
    requires forall section :: section in SECTIONS ==> section !in policy
    ensures var after := WithDefaults(policy);
      && Get(after, "trustline_policy", PyNone) == PyDict(map[
           "mode" := PyStr("xrpl_lookup"), "require_trustline" := PyBool(false),
           "block_if_no_trustline" := PyBool(false), "allowed_currencies" := PyList([PyStr("XRP")]),
           "allowed_issuers" := PyList([]), "require_authorized_trustline" := PyBool(false),
           "allow_xrp_without_trustline" := PyBool(true)])
      && Get(after, "destination_policy", PyNone) == PyDict(map[
           "require_account_exists" := PyBool(true), "allow_new_destination" := PyBool(true),
           "new_destination_risk_score" := PyNum(20.0), "block_if_account_not_found" := PyBool(true)])
      && Get(after, "history_policy", PyNone) == PyDict(map[
           "enable_account_tx_lookup" := PyBool(false), "detect_new_destination" := PyBool(true)])
  {
    assert SECTIONS[0] in SECTIONS && SECTIONS[1] in SECTIONS && SECTIONS[2] in SECTIONS;
    assert "trustline_policy" != "destination_policy" && "destination_policy" != "history_policy"
      && "trustline_policy" != "history_policy";
  }

  /** Filling in twice is filling in once. */
  lemma DefaultsIdempotent(policy: Dict)
    ensures WithDefaults(WithDefaults(policy)) == WithDefaults(policy)
  {
    hide DefaultsOf, WithDefaults;
    var once := WithDefaults(policy);
    forall section | section in SECTIONS ensures WithSection(once, section) == once {
      DefaultsFillGaps(policy, section);
      var filled := Get(once, section, PyNone);
      if filled.PyDict? {
        assert DefaultsOf(section) + filled.entries == filled.entries;
        assert once[section := filled] == once;
      }
    }
    WithDefaultsIs(once);
  }

  lemma WithDefaultsIs(policy: Dict)
    requires forall section :: section in SECTIONS ==> WithSection(policy, section) == policy
    ensures WithDefaults(policy) == policy
  {
    assert SECTIONS[0] in SECTIONS && SECTIONS[1] in SECTIONS && SECTIONS[2] in SECTIONS;
  }

  // ---------- The old whitelist ----------

  const LEGACY: string := "legacy_whitelist"
  const DEPRECATED: string := "trustline_whitelist"
  const ALLOWED: string := "allowed_destinations"
  const ENABLED: string := "enabled"

  /** What can stand in a Python set. */
  predicate Hashable(items: seq<PyValue>) {
    forall i :: 0 <= i < |items| ==> !items[i].PyList? && !items[i].PyDict?
  }

  function ItemsOf(config: Dict): seq<PyValue> {
    var v := Get(config, ALLOWED, PyList([]));
    if v.PyList? then v.items else []
  }

  function LegacyOf(policy: Dict): Dict {
    var v := Get(policy, LEGACY, PyNone);
    if v.PyDict? then v.entries else map[]
  }

  /** `_apply_deprecated_trustline_whitelist`; nothing if an item cannot be a dictionary key. */
  function Migrated(policy: Dict): Option<Dict> {
    var former := Get(policy, DEPRECATED, PyNone);
    if !former.PyDict? then Some(policy)
    else
      var legacy := LegacyOf(policy);
      var all := ItemsOf(legacy) + ItemsOf(former.entries);
      if !Hashable(all) then None
      else
        var listed := legacy[ALLOWED := PyList(Dedup(all))];
        Some(policy[LEGACY := PyDict(if ENABLED in listed then listed else listed[ENABLED := PyBool(true)])])
  }

  /** A loaded policy document, changed in place. */
  class PolicyDocument {
    var entries: Dict

    constructor (entries: Dict)
      ensures this.entries == entries
    {
      this.entries := entries;
    }

    method EnsurePolicyDefaults()
      modifies this
      ensures entries == WithDefaults(old(entries))
    {
      hide DefaultsOf;
      for i := 0 to 3
        invariant i == 0 ==> entries == old(entries)
        invariant i == 1 ==> entries == WithSection(old(entries), SECTIONS[0])
        invariant i == 2 ==> entries == WithSection(WithSection(old(entries), SECTIONS[0]), SECTIONS[1])
        invariant i == 3 ==> entries == WithDefaults(old(entries))
      {
        var existing := Get(entries, SECTIONS[i], PyNone);
        if existing.PyDict? {
          var merged := DefaultsOf(SECTIONS[i]);
          merged := merged + existing.entries;
          entries := entries[SECTIONS[i] := PyDict(merged)];
        } else if existing.PyNone? {
          entries := entries[SECTIONS[i] := PyDict(DefaultsOf(SECTIONS[i]))];
        }
      }
    }

    method ApplyDeprecatedTrustlineWhitelist() returns (ok: bool)
      modifies this
      ensures ok <==> Migrated(old(entries)).Some?
      ensures entries == if ok then Migrated(old(entries)).value else old(entries)
    {
      var deprecated := Get(entries, DEPRECATED, PyNone);
      if !deprecated.PyDict? {
        return true;
      }
      var legacy := LegacyOf(entries);
      var all := ItemsOf(legacy) + ItemsOf(deprecated.entries);
      if !Hashable(all) {
        return false;
      }
      legacy := legacy[ALLOWED := PyList(Dedup(all))];
      if ENABLED !in legacy {
        legacy := legacy[ENABLED := PyBool(true)];
      }
      entries := entries[LEGACY := PyDict(legacy)];
      return true;
    }
  }

  function Loaded(policy: Dict): Option<Dict> {
    var m := Migrated(policy);
    if m.None? then None else Some(WithDefaults(m.value))
  }

  method LoadPolicyConfig(base: Dict, files: seq<Option<Dict>>) returns (policy: Option<Dict>)
    ensures policy == Loaded(MergeFiles(base, files))
  {
    hide MergeValue, Migrated, WithDefaults;
    var merged := base;
    for i := 0 to |files|
      invariant merged == MergeFiles(base, files[..i])
    {
      assert files[..i + 1][..i] == files[..i];
      if files[i].Some? {
        merged := MergePolicyFiles(merged, files[i].value);
      }
    }
    assert files[..|files|] == files;
    var document := new PolicyDocument(merged);
    var ok := document.ApplyDeprecatedTrustlineWhitelist();
    if !ok {
      return None;
    }
    document.EnsurePolicyDefaults();
    return Some(document.entries);
  }

  // ---------- What the migration keeps ----------

  /** `x in set(v)`; a set cannot be made of every value. */
  function InSetOf(text: string, v: PyValue): Option<bool> {
    match v
    case PyList(items) => if Hashable(items) then Some(PyStr(text) in items) else None
    case PyStr(s) => Some(|text| == 1 && text[0] in s)
    case PyDict(d) => Some(text in d)
    case _ => None
  }

  /** `check_legacy_whitelist`; nothing where the program raises. */
  function CheckLegacyWhitelist(destination: string, policy: Dict): Option<bool> {
    var none: Dict := map[];
    var legacy := Get(policy, LEGACY, PyDict(none));
    if !legacy.PyDict? then None
    else
      var own := Get(legacy.entries, ALLOWED, PyList([]));
      var former := Get(policy, DEPRECATED, PyDict(none));
      if !Truth(own) && !former.PyDict? then None
      else
        var allowed := if Truth(own) then own else Get(former.entries, ALLOWED, PyList([]));
        if !Truth(Get(legacy.entries, ENABLED, PyBool(true))) then Some(true)
        else InSetOf(destination, allowed)
  }

  lemma MigratedIs(policy: Dict)
    requires Get(policy, DEPRECATED, PyNone).PyDict? && Migrated(policy).Some?
    ensures var former, legacy := policy[DEPRECATED].entries, LegacyOf(policy);
      var after := LegacyOf(Migrated(policy).value);
      && Hashable(ItemsOf(legacy) + ItemsOf(former))
      && Migrated(policy).value == policy[LEGACY := PyDict(after)]
      && ItemsOf(after) == Dedup(ItemsOf(legacy) + ItemsOf(former))
      && ALLOWED in after && after[ALLOWED] == PyList(ItemsOf(after))
      && ENABLED in after
      && after[ENABLED] == Get(legacy, ENABLED, PyBool(true))
      && after == legacy[ALLOWED := after[ALLOWED]][ENABLED := after[ENABLED]]
  {
    hide Dedup, Hashable;
  }

  /** The new list: the old ones end to end, every destination where it stood first, once. */
  lemma MigratedListKeepsOrder(policy: Dict, i: nat, j: nat)
    requires Get(policy, DEPRECATED, PyNone).PyDict? && Migrated(policy).Some?
    requires i < j < |ItemsOf(LegacyOf(Migrated(policy).value))|
    ensures
      var all := ItemsOf(LegacyOf(policy)) + ItemsOf(policy[DEPRECATED].entries);
      var list := ItemsOf(LegacyOf(Migrated(policy).value));
      && (forall x :: x in list <==> x in all)
      && list[i] != list[j] && FirstAt(all, list[i]) < FirstAt(all, list[j])
  {
    hide LegacyOf, Migrated, ItemsOf, FirstAt;
    MigratedIs(policy);
    DedupKeepsOrder(ItemsOf(LegacyOf(policy)) + ItemsOf(policy[DEPRECATED].entries), i, j);
  }

  lemma MigrationIdempotent(policy: Dict)
    requires Migrated(policy).Some?
    ensures Migrated(Migrated(policy).value) == Migrated(policy)
  {
    var once := Migrated(policy).value;
    if Get(policy, DEPRECATED, PyNone).PyDict? {
      hide *;
      MigratedIs(policy);
      OldListStays(policy);
      var after := LegacyOf(once);
      var l, d := ItemsOf(LegacyOf(policy)), ItemsOf(policy[DEPRECATED].entries);
      DedupAbsorbs(Dedup(l + d), d);
      DedupOfDistinct(Dedup(l + d));
      HashableMembers(l + d, Dedup(l + d) + d);
      MigratedFrom(once);
      assert after[ALLOWED := PyList(ItemsOf(after))] == after;
      assert once[LEGACY := PyDict(after)] == once;
    }
  }

  lemma OldListStays(policy: Dict)
    requires Get(policy, DEPRECATED, PyNone).PyDict? && Migrated(policy).Some?
    ensures Get(Migrated(policy).value, DEPRECATED, PyNone) == PyDict(policy[DEPRECATED].entries)
    ensures DEPRECATED in Migrated(policy).value
  {
    hide Dedup, Hashable, LegacyOf, ItemsOf;
  }

  lemma HashableMembers(items: seq<PyValue>, others: seq<PyValue>)
    requires Hashable(items) && forall x :: x in others ==> x in items
    ensures Hashable(others)
  {
    forall i | 0 <= i < |others| ensures !others[i].PyList? && !others[i].PyDict? {
      assert others[i] in items;
    }
  }

  lemma MigratedFrom(policy: Dict)
    requires Get(policy, DEPRECATED, PyNone).PyDict?
    requires Hashable(ItemsOf(LegacyOf(policy)) + ItemsOf(policy[DEPRECATED].entries))
    ensures var legacy := LegacyOf(policy);
      var listed := legacy[ALLOWED := PyList(Dedup(ItemsOf(legacy) + ItemsOf(policy[DEPRECATED].entries)))];
      Migrated(policy)
      == Some(policy[LEGACY := PyDict(if ENABLED in listed then listed else listed[ENABLED := PyBool(true)])])
  {
    hide Dedup, Hashable;
  }

  lemma SectionLeavesLists(policy: Dict, section: string, legacy: PyValue)
    requires section in SECTIONS
    ensures var q := WithSection(policy, section);
      && (LEGACY in q <==> LEGACY in policy) && (LEGACY in q ==> q[LEGACY] == policy[LEGACY])
      && (DEPRECATED in q <==> DEPRECATED in policy) && (DEPRECATED in q ==> q[DEPRECATED] == policy[DEPRECATED])
    ensures WithSection(policy[LEGACY := legacy], section) == WithSection(policy, section)[LEGACY := legacy]
  {
    hide DefaultsOf;
    assert section != LEGACY && section != DEPRECATED;
    var existing := Get(policy, section, PyNone);
    assert Get(policy[LEGACY := legacy], section, PyNone) == existing;
    var v := PyDict(DefaultsOf(section) + (if existing.PyDict? then existing.entries else map[]));
    assert policy[section := v][LEGACY := legacy] == policy[LEGACY := legacy][section := v];
    assert DefaultsOf(section) + map[] == DefaultsOf(section);
  }

  lemma DefaultsLeaveLists(policy: Dict, legacy: PyValue)
    ensures var q := WithDefaults(policy);
      && (LEGACY in q <==> LEGACY in policy) && (LEGACY in q ==> q[LEGACY] == policy[LEGACY])
      && (DEPRECATED in q <==> DEPRECATED in policy) && (DEPRECATED in q ==> q[DEPRECATED] == policy[DEPRECATED])
    ensures WithDefaults(policy[LEGACY := legacy]) == WithDefaults(policy)[LEGACY := legacy]
  {
    hide WithSection;
    var p1 := WithSection(policy, SECTIONS[0]);
    var p2 := WithSection(p1, SECTIONS[1]);
    SectionLeavesLists(policy, SECTIONS[0], legacy);
    SectionLeavesLists(p1, SECTIONS[1], legacy);
    SectionLeavesLists(p2, SECTIONS[2], legacy);
  }

  /** It does not matter whether the defaults come before or after the migration. */
  lemma MigrationCommutesWithDefaults(policy: Dict)
    ensures Migrated(WithDefaults(policy)) == Loaded(policy)
  {
    hide WithDefaults, Dedup, Hashable;
    var q := WithDefaults(policy);
    DefaultsLeaveLists(policy, PyNone);
    assert LegacyOf(q) == LegacyOf(policy);
    if Migrated(policy).Some? && Get(policy, DEPRECATED, PyNone).PyDict? {
      DefaultsLeaveLists(policy, Migrated(policy).value[LEGACY]);
    }
  }

  lemma DefaultsKeepAnswers(policy: Dict, destination: string)
    ensures CheckLegacyWhitelist(destination, WithDefaults(policy)) == CheckLegacyWhitelist(destination, policy)
  {
    hide WithDefaults, InSetOf, Truth;
    DefaultsLeaveLists(policy, PyNone);
  }

  /** The whitelists as the configuration means them: dictionaries, if they are there, that hold lists. */
  ghost predicate ListValued(policy: Dict) {
    && DEPRECATED in policy && policy[DEPRECATED].PyDict?
    && Get(policy[DEPRECATED].entries, ALLOWED, PyList([])).PyList?
    && (LEGACY in policy ==> policy[LEGACY].PyDict?)
    && Get(LegacyOf(policy), ALLOWED, PyList([])).PyList?
  }

  ghost predicate Enforced(policy: Dict) {
    Truth(Get(LegacyOf(policy), ENABLED, PyBool(true)))
  }

  lemma AnswerOf(policy: Dict, destination: string)
    requires ListValued(policy)
    requires Hashable(ItemsOf(LegacyOf(policy))) && Hashable(ItemsOf(policy[DEPRECATED].entries))
    ensures var legacy, former := ItemsOf(LegacyOf(policy)), ItemsOf(policy[DEPRECATED].entries);
      CheckLegacyWhitelist(destination, policy)
      == Some(!Enforced(policy) || PyStr(destination) in if legacy != [] then legacy else former)
  {
    hide Hashable;
  }

  lemma HashableLists(policy: Dict)
    requires ListValued(policy) && Migrated(policy).Some?
    ensures Hashable(ItemsOf(LegacyOf(policy))) && Hashable(ItemsOf(policy[DEPRECATED].entries))
  {
    hide LegacyOf, ItemsOf, Dedup;
    var l, d := ItemsOf(LegacyOf(policy)), ItemsOf(policy[DEPRECATED].entries);
    assert Hashable(l + d);
    HashableMembers(l + d, l);
    HashableMembers(l + d, d);
  }

  lemma AnswerBefore(policy: Dict, destination: string)
    requires ListValued(policy) && Migrated(policy).Some?
    ensures var legacy, former := ItemsOf(LegacyOf(policy)), ItemsOf(policy[DEPRECATED].entries);
      CheckLegacyWhitelist(destination, policy)
      == Some(!Enforced(policy) || PyStr(destination) in if legacy != [] then legacy else former)
  {
    hide *;
    HashableLists(policy);
    AnswerOf(policy, destination);
  }

  lemma MigratedIsListValued(policy: Dict)
    requires ListValued(policy) && Migrated(policy).Some?
    ensures var next := Migrated(policy).value;
      && ListValued(next)
      && (Enforced(next) <==> Enforced(policy))
      && next[DEPRECATED] == policy[DEPRECATED]
      && ItemsOf(LegacyOf(next)) == Dedup(ItemsOf(LegacyOf(policy)) + ItemsOf(policy[DEPRECATED].entries))
  {
    hide Migrated, Dedup, Hashable, Truth, ItemsOf;
    MigratedIs(policy);
    OldListStays(policy);
  }

  lemma AnswerAfter(policy: Dict, destination: string)
    requires ListValued(policy) && Migrated(policy).Some?
    ensures CheckLegacyWhitelist(destination, Migrated(policy).value)
      == Some(!Enforced(policy) || PyStr(destination) in ItemsOf(LegacyOf(policy))
              || PyStr(destination) in ItemsOf(policy[DEPRECATED].entries))
  {
    hide CheckLegacyWhitelist, Migrated, Dedup, Hashable, Enforced, ItemsOf, Truth;
    var l, d := ItemsOf(LegacyOf(policy)), ItemsOf(policy[DEPRECATED].entries);
    HashableLists(policy);
    MigratedIsListValued(policy);
    MigratedIs(policy);
    HashableMembers(l + d, Dedup(l + d));
    AnswerOf(Migrated(policy).value, destination);
    var x := PyStr(destination);
    assert x in Dedup(l + d) <==> x in l || x in d;
  }

  /** Loading never takes a destination away. */
  lemma LoadingOnlyAdds(policy: Dict, destination: string)
    requires ListValued(policy) && Loaded(policy).Some?
    ensures CheckLegacyWhitelist(destination, policy).Some?
    ensures CheckLegacyWhitelist(destination, Loaded(policy).value).Some?
    ensures CheckLegacyWhitelist(destination, policy).value ==>
      CheckLegacyWhitelist(destination, Loaded(policy).value).value
  {
    hide CheckLegacyWhitelist, Migrated, WithDefaults;
    DefaultsKeepAnswers(Migrated(policy).value, destination);
    AnswerBefore(policy, destination);
    AnswerAfter(policy, destination);
  }

  /** What the old list adds: nothing if the list is off, if it was the only list, or if it names nobody new. */
  ghost predicate AddsNobody(policy: Dict)
    requires ListValued(policy)
  {
    var legacy, former := ItemsOf(LegacyOf(policy)), ItemsOf(policy[DEPRECATED].entries);
    !Enforced(policy) || legacy == [] || forall x :: x in former && x.PyStr? ==> x in legacy
  }

  /** Every answer is the same before and after exactly then. */
  lemma LoadingKeepsAnswersIff(policy: Dict)
    requires ListValued(policy) && Loaded(policy).Some?
    ensures AddsNobody(policy) <==>
      forall destination :: CheckLegacyWhitelist(destination, Loaded(policy).value)
        == CheckLegacyWhitelist(destination, policy)
  {
    hide CheckLegacyWhitelist, Migrated, WithDefaults, Enforced;
    var before, next := policy, Migrated(policy).value;
    forall destination
      ensures CheckLegacyWhitelist(destination, Loaded(policy).value) == CheckLegacyWhitelist(destination, policy)
        <==> (!Enforced(policy) || ItemsOf(LegacyOf(policy)) == [] || PyStr(destination) in ItemsOf(LegacyOf(policy))
              || PyStr(destination) !in ItemsOf(policy[DEPRECATED].entries))
    {
      DefaultsKeepAnswers(next, destination);
      AnswerBefore(policy, destination);
      AnswerAfter(policy, destination);
    }
    if !AddsNobody(policy) {
      var x :| x in ItemsOf(policy[DEPRECATED].entries) && x.PyStr? && x !in ItemsOf(LegacyOf(policy));
      assert PyStr(x.s) == x;
      assert CheckLegacyWhitelist(x.s, Loaded(policy).value) != CheckLegacyWhitelist(x.s, policy);
    }
  }

  ghost function TextsOf(texts: seq<string>): seq<PyValue> {
    seq(|texts|, i requires 0 <= i < |texts| => PyStr(texts[i]))
  }

  /** A policy that has the old list only: after loading exactly its destinations are accepted, and it is switched
      on. */
  lemma OldListIsEnforced(listed: seq<string>, destination: string)
    ensures var former := PyDict(map["allowed_destinations" := PyList(TextsOf(listed))]);
      var policy: Dict := map["trustline_whitelist" := former];
      && Loaded(policy).Some?
      && CheckLegacyWhitelist(destination, Loaded(policy).value) == Some(destination in listed)
      && Get(LegacyOf(Migrated(policy).value), "enabled", PyNone) == PyBool(true)
  {
    var policy: Dict := map["trustline_whitelist" := PyDict(map["allowed_destinations" := PyList(TextsOf(listed))])];
    hide WithDefaults, CheckLegacyWhitelist, Dedup;
    assert ItemsOf(LegacyOf(policy)) == [] && ItemsOf(policy["trustline_whitelist"].entries) == TextsOf(listed);
    assert [] + TextsOf(listed) == TextsOf(listed);
    assert Migrated(policy).Some? && ListValued(policy);
    AnswerAfter(policy, destination);
    DefaultsKeepAnswers(Migrated(policy).value, destination);
    if destination in listed {
      var i :| 0 <= i < |listed| && listed[i] == destination;
      assert TextsOf(listed)[i] == PyStr(destination);
    }
  }
}
