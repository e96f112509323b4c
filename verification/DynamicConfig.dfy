/** The dynamic config a batch's own server is started with: the defaults from a file, overridden key by
    key by what the variant asks for, as command line arguments in the order of their keys. */
module DynamicConfig {
  import opened Seqs
  import opened Semver

  /** The values of each key, with their constraints left out; None is a value without JSON text. */
  type Values = map<string, seq<Option<string>>>

  /** What reading the file of defaults gives. */
  datatype File = Missing | Unreadable | Undecodable | Read(values: Values)

  datatype Error = BadFile(file: File) | NotJson(key: string)

  /** One value set for a key, as JSON text. */
  datatype Setting = Setting(key: string, value: string)

  const FLAG := "--dynamic-config-value"

  // ----- Keys in order -----

  ghost predicate Ascending(keys: seq<string>) {
    forall i, j :: 0 <= i < j < |keys| ==> CompareStrings(keys[i], keys[j]) < 0
  }

  /** sort.Strings */
  function Sort(keys: seq<string>): seq<string> {
    if keys == [] then [] else Insert(keys[0], Sort(keys[1..]))
  }

  function Insert(key: string, sorted: seq<string>): (r: seq<string>)
    ensures forall k :: k in r <==> k == key || k in sorted
  {
    if sorted == [] || CompareStrings(key, sorted[0]) <= 0 then [key] + sorted
    else [sorted[0]] + Insert(key, sorted[1..])
  }

  lemma {:induction false} InsertKeepsOrder(key: string, sorted: seq<string>)
    requires Ascending(sorted) && key !in sorted
    ensures Ascending(Insert(key, sorted))
  {
    var r := Insert(key, sorted);
    if sorted != [] {
      StringsZero(key, sorted[0]);
      if CompareStrings(key, sorted[0]) < 0 {
        forall j | 0 <= j < |sorted|
          ensures CompareStrings(key, sorted[j]) < 0
        {
          StringsChain(key, sorted[0], sorted[j]);
        }
      } else {
        InsertKeepsOrder(key, sorted[1..]);
        hide CompareStrings;
        assert CompareStrings(sorted[0], key) < 0;
        var more := Insert(key, sorted[1..]);
        assert r == [sorted[0]] + more;
        forall j | 0 <= j < |more|
          ensures CompareStrings(r[0], more[j]) < 0
        {
          assert more[j] in more;
        }
      }
    }
  }

  lemma {:induction false} SortSorts(keys: seq<string>)
    requires NoDuplicates(keys)
    ensures Ascending(Sort(keys)) && forall k :: k in Sort(keys) <==> k in keys
  {
    if keys != [] {
      SortSorts(keys[1..]);
      InsertKeepsOrder(keys[0], Sort(keys[1..]));
    }
  }

  lemma SmallestIsFirst(a: seq<string>, b: seq<string>)
    requires Ascending(a) && Ascending(b) && a != [] && b != [] && forall k :: k in a <==> k in b
    ensures a[0] == b[0]
  {
    assert a[0] in b && b[0] in a;
    StringsZero(a[0], b[0]);
  }

  lemma {:induction false} OrderIsUnique(a: seq<string>, b: seq<string>)
    requires Ascending(a) && Ascending(b) && forall k :: k in a <==> k in b
    ensures a == b
  {
    SameEmptiness(a, b);
    SameEmptiness(b, a);
    if a != [] {
      SmallestIsFirst(a, b);
      FirstIsApart(a);
      FirstIsApart(b);
      OrderIsUnique(a[1..], b[1..]);
      assert a == [a[0]] + a[1..] && b == [b[0]] + b[1..];
    }
  }

  lemma SameEmptiness(a: seq<string>, b: seq<string>)
    requires forall k :: k in a <==> k in b
    ensures a != [] ==> b != []
  {
    if a != [] {
      assert a[0] in a;
    }
  }

  lemma FirstIsApart(a: seq<string>)
    requires Ascending(a) && a != []
    ensures forall k :: k in a[1..] <==> k in a && k != a[0]
  {
    forall j | 0 < j < |a|
      ensures a[j] != a[0]
    {
      StringsZero(a[0], a[j]);
    }
  }

  /** The keys of a map in order. */
  ghost predicate AreKeys(keys: seq<string>, values: Values) {
    Ascending(keys) && forall k :: k in keys <==> k in values
  }

  lemma {:induction false} KeysExist(left: set<string>) returns (keys: seq<string>)
    ensures NoDuplicates(keys) && forall k :: k in keys <==> k in left
  {
    if left == {} {
      keys := [];
    } else {
      var key :| key in left;
      keys := KeysExist(left - {key});
      keys := keys + [key];
    }
  }

  ghost function SortedKeys(values: Values): (keys: seq<string>)
    ensures AreKeys(keys, values)
  {
    assert exists keys :: AreKeys(keys, values) by {
      var keys := KeysExist(values.Keys);
      SortSorts(keys);
      assert AreKeys(Sort(keys), values);
    }
    var keys :| AreKeys(keys, values);
    keys
  }

  // ----- Arguments -----

  /** An overridden key has that one value and none of the defaults. */
  function Merged(defaults: Values, overrides: map<string, string>): Values {
    defaults + map key | key in overrides :: [Some(overrides[key])]
  }

  function SettingsOf(key: string, values: seq<Option<string>>): Option<seq<Setting>> {
    if values == [] then Some([])
    else
      var n := |values| - 1;
      match SettingsOf(key, values[..n])
      case None => None
      case Some(before) => if values[n].None? then None else Some(before + [Setting(key, values[n].value)])
  }

  /** The settings of some keys, or the first key with a value that has no JSON text. */
  function Collect(keys: seq<string>, values: Values): Result<seq<Setting>, Error>
    requires forall k :: k in keys ==> k in values
  {
    if keys == [] then Ok([])
    else
      var n := |keys| - 1;
      assert keys[n] in keys;
      match Collect(keys[..n], values)
      case Err(e) => Err(e)
      case Ok(before) => match SettingsOf(keys[n], values[keys[n]])
        case None => Err(NotJson(keys[n]))
        case Some(more) => Ok(before + more)
  }

  /** The settings of a server: those of the file, or none if there is no file, and the overrides. */
  ghost function Settings(file: File, overrides: map<string, string>): Result<seq<Setting>, Error> {
    if file.Unreadable? || file.Undecodable? then Err(BadFile(file))
    else
      var values := Merged(if file.Missing? then map[] else file.values, overrides);
      Collect(SortedKeys(values), values)
  }

  function Flags(settings: seq<Setting>): seq<string> {
    if settings == [] then []
    else
      var n := |settings| - 1;
      Flags(settings[..n]) + [FLAG, settings[n].key + "=" + settings[n].value]
  }

  lemma FlagsAppend(settings: seq<Setting>, s: Setting)
    ensures Flags(settings + [s]) == Flags(settings) + [FLAG, s.key + "=" + s.value]
  {
    assert (settings + [s])[..|settings|] == settings;
  }

  /** dynamicConfigArgs; maps are walked in any order. */
  method DynamicConfigArgs(file: File, overrides: map<string, string>) returns (r: Result<seq<string>, Error>)
    ensures r == match Settings(file, overrides)
      case Err(e) => Err(e)
      case Ok(settings) => Ok(Flags(settings))
  {
    hide Ascending, Flags, Sort, Merged, SettingsOf, Collect;
    if file.Unreadable? || file.Undecodable? {
      return Err(BadFile(file));
    }
    var values := Override(if file.Missing? then map[] else file.values, overrides);
    var keys := KeysOf(values);
    NothingCollected(values);
    var args: seq<string> := [];
    ghost var settings: seq<Setting> := [];
    for i := 0 to |keys|
      invariant Collect(keys[..i], values) == Ok(settings) && args == Flags(settings)
    {
      var key := keys[i];
      assert key in keys && keys[..i + 1][..i] == keys[..i];
      ghost var before := settings;
      NoSettings(key);
      assert values[key][..0] == [] && before + [] == before;
      for j := 0 to |values[key]|
        invariant SettingsOf(key, values[key][..j]).Some?
        invariant settings == before + SettingsOf(key, values[key][..j]).value && args == Flags(settings)
      {
        NextSetting(key, values[key], j);
        if values[key][j].None? {
          StaysNone(key, values[key], j + 1);
          CollectStops(keys, values, i);
          return Err(NotJson(key));
        }
        var s := Setting(key, values[key][j].value);
        FlagsAppend(settings, s);
        args := args + [FLAG, key + "=" + s.value];
        settings := settings + [s];
      }
      assert values[key][..|values[key]|] == values[key];
      NextKey(keys, values, i);
    }
    assert keys[..|keys|] == keys;
    r := Ok(args);
  }

  method KeysOf(values: Values) returns (sorted: seq<string>)
    ensures sorted == SortedKeys(values)
  {
    var keys: seq<string> := [];
    var left := values.Keys;
    while left != {}
      invariant left <= values.Keys && NoDuplicates(keys)
      invariant forall k :: k in keys <==> k in values.Keys - left
      decreases left
    {
      var key :| key in left;
      assert key !in keys;
      keys := keys + [key];
      left := left - {key};
    }
    SortSorts(keys);
    sorted := Sort(keys);
    OrderIsUnique(sorted, SortedKeys(values));
  }

  method Override(defaults: Values, overrides: map<string, string>) returns (values: Values)
    ensures values == Merged(defaults, overrides)
  {
    hide Merged;
    values := defaults;
    var left := overrides.Keys;
    MergedStep(defaults, map[], "", "");
    assert overrides - left == map[];
    while left != {}
      invariant left <= overrides.Keys && values == Merged(defaults, overrides - left)
      decreases left
    {
      var key :| key in left;
      MergedStep(defaults, overrides - left, key, overrides[key]);
      assert (overrides - left)[key := overrides[key]] == overrides - (left - {key});
      values := values[key := [Some(overrides[key])]];
      left := left - {key};
    }
    assert overrides - {} == overrides;
  }

  lemma MergedStep(defaults: Values, m: map<string, string>, key: string, value: string)
    ensures Merged(defaults, map[]) == defaults
    ensures Merged(defaults, m[key := value]) == Merged(defaults, m)[key := [Some(value)]]
  {
  }

  lemma NothingCollected(values: Values)
    ensures Flags([]) == [] && Collect([], values) == Ok([])
  {
  }

  lemma NoSettings(key: string)
    ensures SettingsOf(key, []) == Some([])
  {
  }

  lemma NextSetting(key: string, values: seq<Option<string>>, j: nat)
    requires j < |values| && SettingsOf(key, values[..j]).Some?
    ensures SettingsOf(key, values[..j + 1])
         == if values[j].None? then None
            else Some(SettingsOf(key, values[..j]).value + [Setting(key, values[j].value)])
  {
    assert values[..j + 1][..j] == values[..j];
  }

  lemma NextKey(keys: seq<string>, values: Values, i: nat)
    requires i < |keys| && forall k :: k in keys ==> k in values
    requires Collect(keys[..i], values).Ok? && keys[i] in values && SettingsOf(keys[i], values[keys[i]]).Some?
    ensures Collect(keys[..i + 1], values)
         == Ok(Collect(keys[..i], values).value + SettingsOf(keys[i], values[keys[i]]).value)
  {
    hide SettingsOf;
    assert keys[..i + 1][..i] == keys[..i];
  }

  lemma {:induction false} StaysNone(key: string, values: seq<Option<string>>, j: nat)
    requires j <= |values| && SettingsOf(key, values[..j]).None?
    ensures SettingsOf(key, values).None?
  {
    if j < |values| {
      var n := |values| - 1;
      assert values[..n][..j] == values[..j];
      StaysNone(key, values[..n], j);
    } else {
      assert values[..j] == values;
    }
  }

  lemma {:induction false} CollectStops(keys: seq<string>, values: Values, i: nat)
    requires i < |keys| && forall k :: k in keys ==> k in values
    requires Collect(keys[..i], values).Ok? && keys[i] in values && SettingsOf(keys[i], values[keys[i]]).None?
    ensures Collect(keys, values) == Err(NotJson(keys[i]))
  {
    var n := |keys| - 1;
    if i < n {
      assert keys[..n][..i] == keys[..i];
      CollectStops(keys[..n], values, i);
    }
  }

  // ----- What the server gets -----

  /** The values set for a key, in order. */
  function ValuesFor(settings: seq<Setting>, key: string): seq<string> {
    if settings == [] then []
    else
      var n := |settings| - 1;
      ValuesFor(settings[..n], key) + (if settings[n].key == key then [settings[n].value] else [])
  }

  lemma {:induction false} ValuesConcat(a: seq<Setting>, b: seq<Setting>, key: string)
    ensures ValuesFor(a + b, key) == ValuesFor(a, key) + ValuesFor(b, key)
  {
    if b == [] {
      assert a + b == a && ValuesFor(a, key) + [] == ValuesFor(a, key);
    } else {
      var n := |b| - 1;
      ValuesConcat(a, b[..n], key);
      assert (a + b)[..|a| + n] == a + b[..n];
    }
  }

  /** All values have a text, and these are the texts. */
  ghost predicate AreTexts(texts: seq<string>, values: seq<Option<string>>) {
    |texts| == |values| && forall i :: 0 <= i < |values| ==> values[i] == Some(texts[i])
  }

  lemma {:induction false} SettingsOfMean(key: string, values: seq<Option<string>>, other: string)
    ensures SettingsOf(key, values).Some? <==> forall v :: v in values ==> v.Some?
    ensures SettingsOf(key, values).Some? ==>
      if other == key then AreTexts(ValuesFor(SettingsOf(key, values).value, other), values)
      else ValuesFor(SettingsOf(key, values).value, other) == []
  {
    if values != [] {
      var n := |values| - 1;
      SettingsOfMean(key, values[..n], other);
      assert values == values[..n] + [values[n]];
      if SettingsOf(key, values).Some? {
        var before := SettingsOf(key, values[..n]).value;
        var s := Setting(key, values[n].value);
        assert (before + [s])[..|before|] == before;
      }
    }
  }

  lemma {:induction false} CollectMeans(keys: seq<string>, values: Values, key: string)
    requires NoDuplicates(keys) && forall k :: k in keys ==> k in values
    ensures Collect(keys, values).Ok? ==>
      if key in keys then AreTexts(ValuesFor(Collect(keys, values).value, key), values[key])
      else ValuesFor(Collect(keys, values).value, key) == []
  {
    hide SettingsOf, AreTexts;
    if keys != [] && Collect(keys, values).Ok? {
      var n := |keys| - 1;
      var last := keys[n];
      assert last in keys && keys == keys[..n] + [last];
      CollectMeans(keys[..n], values, key);
      SettingsOfMean(last, values[last], key);
      var (before, more) := (Collect(keys[..n], values).value, SettingsOf(last, values[last]).value);
      ValuesConcat(before, more, key);
      assert [] + ValuesFor(more, key) == ValuesFor(more, key);
      assert ValuesFor(before, key) + [] == ValuesFor(before, key);
    }
  }

  lemma {:induction false} CollectFails(keys: seq<string>, values: Values)
    requires forall k :: k in keys ==> k in values
    ensures Collect(keys, values).Err? <==> exists k :: k in keys && None in values[k]
  {
    if keys != [] {
      var n := |keys| - 1;
      var last := keys[n];
      assert keys == keys[..n] + [last];
      CollectFails(keys[..n], values);
      SettingsOfMean(last, values[last], last);
      assert SettingsOf(last, values[last]).None? <==> None in values[last];
      hide SettingsOf;
    }
  }

  function DefaultsOf(file: File): Values {
    if file.Read? then file.values else map[]
  }

  lemma SortedHaveNoDuplicates(keys: seq<string>)
    requires Ascending(keys)
    ensures NoDuplicates(keys)
  {
    forall i, j | 0 <= i < j < |keys|
      ensures keys[i] != keys[j]
    {
      StringsZero(keys[i], keys[j]);
    }
  }

  /** A server's settings fail exactly when the file is bad or a default that is not overridden has no
      JSON text. */
  lemma SettingsFailExactly(file: File, overrides: map<string, string>)
    ensures Settings(file, overrides).Err? <==>
      || file.Unreadable? || file.Undecodable?
      || exists k :: k in DefaultsOf(file) && k !in overrides && None in DefaultsOf(file)[k]
  {
    if !file.Unreadable? && !file.Undecodable? {
      var values := Merged(DefaultsOf(file), overrides);
      CollectFails(SortedKeys(values), values);
      hide Collect, Ascending;
      if k :| k in values && None in values[k] {
        assert k !in overrides;
      }
    }
  }

  /** Every key the variant overrides has exactly the variant's value, every other key exactly its
      defaults, in order. */
  lemma OverridesReplaceDefaults(file: File, overrides: map<string, string>, key: string)
    requires Settings(file, overrides).Ok?
    ensures var given := ValuesFor(Settings(file, overrides).value, key);
      if key in overrides then given == [overrides[key]]
      else if key in DefaultsOf(file) then AreTexts(given, DefaultsOf(file)[key])
      else given == []
  {
    var values := Merged(DefaultsOf(file), overrides);
    var keys := SortedKeys(values);
    SortedHaveNoDuplicates(keys);
    CollectMeans(keys, values, key);
    hide Collect, ValuesFor, Ascending;
  }

  /** Two arguments per setting, in order. */
  lemma {:induction false} FlagsAre(settings: seq<Setting>)
    ensures |Flags(settings)| == 2 * |settings|
    ensures forall i :: 0 <= i < |settings| ==>
      Flags(settings)[2 * i] == "--dynamic-config-value"
      && Flags(settings)[2 * i + 1] == settings[i].key + "=" + settings[i].value
  {
    if settings != [] {
      FlagsAre(settings[..|settings| - 1]);
    }
  }
}
