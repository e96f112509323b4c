/** In-place filtering over one backing array, and its uses: features for an external server and the
    environment of a subprocess. */
module Compaction {
  import opened Seqs
  import opened Batches

  /** kept := s[:0]; for each element, append it if it is kept. Source and destination share `a`;
      the first `k` elements become the filter of the first `n`, the rest stays as it was. */
  method Compact<T(!new)>(a: array<T>, n: nat, keep: T -> bool) returns (k: nat)
    requires n <= a.Length
    modifies a
    ensures k <= n && a[..k] == Filter(old(a[..n]), keep)
    ensures forall i :: k <= i < a.Length ==> a[i] == old(a[i])
  {
    hide MembersKept;
    k := 0;
    ghost var was := old(a[..n]);
    for i := 0 to n
      invariant k <= i && a[..k] == Filter(was[..i], keep)
      invariant forall j :: k <= j < a.Length ==> a[j] == old(a[j])
    {
      var x := a[i];
      FilterConcat(was[..i], [x], keep);
      assert was[..i + 1] == was[..i] + [x];
      assert Filter([x], keep) == if keep(x) then [x] else [];
      if keep(x) {
        a[k] := x;
        k := k + 1;
        assert a[..k] == a[..k - 1] + [x];
      }
    }
    assert was[..n] == was;
  }

  /** filterFeaturesForExternalServer: the first `n` features are the result. */
  method FilterFeaturesForExternalServer(features: array<Feature>, server: string, patterns: seq<string>)
    returns (n: nat)
    modifies features
    ensures n <= features.Length
    ensures features[..n] == if server == "" || patterns != [] then old(features[..])
                             else PlainFeatures(old(features[..]))
  {
    if server == "" || |patterns| > 0 {
      return features.Length;
    }
    n := Compact(features, features.Length, f => Plain(f));
    assert old(features[..features.Length]) == old(features[..]);
  }

  /** What is left for an external server makes one batch without variants: nothing needs a dynamic
      configuration that server does not have. */
  lemma ExternalRunHasNoVariants(features: seq<Feature>, batches: seq<Batch>)
    requires AreBatchesOf(batches, PlainFeatures(features))
    ensures |batches| <= 1
    ensures forall b :: b in batches ==> b.variantName == ""
  {
    PlainHasNoVariantWork(PlainFeatures(features));
    assert PlainFeatures(PlainFeatures(features)) != [] ==>
      IsDefaultBatch(batches[0], PlainFeatures(PlainFeatures(features)));
  }

  lemma {:induction false} PlainHasNoVariantWork(features: seq<Feature>)
    requires forall f :: f in features ==> Plain(f)
    ensures VariantWork(features) == []
  {
    if features != [] {
      PlainHasNoVariantWork(features[..|features| - 1]);
      assert features[|features| - 1] in features;
    }
  }

  // ----- Environments -----

  const CAPABILITIES := "FEATURE_NAMESPACE_CAPABILITIES"

  predicate CarriesCapabilities(entry: string) {
    HasPrefix(entry, CAPABILITIES + "=")
  }

  /** A subprocess to start: its environment is the first `size` strings of `env`. */
  class Command {
    var env: array<string>
    var size: nat

    constructor (env: array<string>)
      ensures this.env == env && size == env.Length
    {
      this.env, size := env, env.Length;
    }

    ghost predicate Valid()
      reads this
    {
      size <= env.Length
    }

    ghost function Environment(): seq<string>
      requires Valid()
      reads this, env
    {
      env[..size]
    }

    /** applyNamespaceCapabilitiesEnv: an empty environment is first filled from the process's, any
        other is copied, so the caller's slice keeps its elements. */
    method ApplyCapabilities(json: string, environ: seq<string>)
      requires Valid()
      modifies this
      ensures Valid()
      ensures json == "" ==> env == old(env) && size == old(size)
      ensures json != "" ==> fresh(env)
      ensures json != "" ==> Environment() == WithCapabilities(
        if old(Environment()) == [] then environ else old(Environment()), json)
    {
      if json == "" {
        return;
      }
      var base := if size == 0 then environ else env[..size];
      var copy := new string[|base| + 1](i requires 0 <= i <= |base| => if i < |base| then base[i] else "");
      assert copy[..|base|] == base;
      var k := Compact(copy, |base|, entry => !CarriesCapabilities(entry));
      copy[k] := CAPABILITIES + "=" + json;
      env, size := copy, k + 1;
      assert env[..size] == copy[..k] + [CAPABILITIES + "=" + json];
    }
  }

  function WithCapabilities(environ: seq<string>, json: string): seq<string> {
    Filter(environ, entry => !CarriesCapabilities(entry)) + [CAPABILITIES + "=" + json]
  }

  /** Exactly one entry carries the capabilities, it is the last, and it carries the new ones. */
  lemma OneCapabilitiesEntry(environ: seq<string>, json: string)
    ensures var after := WithCapabilities(environ, json);
      forall i :: 0 <= i < |after| ==> (CarriesCapabilities(after[i]) <==> i == |after| - 1)
    ensures var after := WithCapabilities(environ, json);
      after[|after| - 1][|CAPABILITIES| + 1..] == json
    ensures forall entry :: entry in environ && !CarriesCapabilities(entry) ==>
      entry in WithCapabilities(environ, json)
  {
    var kept := Filter(environ, entry => !CarriesCapabilities(entry));
    assert forall i :: 0 <= i < |kept| ==> kept[i] in kept;
  }

  /** The process's own environment variable, which in-process Go runs read. */
  class ProcessEnv {
    var value: Option<string>

    constructor (value: Option<string>)
      ensures this.value == value
    {
      this.value := value;
    }

    /** setNamespaceCapabilitiesEnv; the result is what its closure will do. */
    method SetCapabilities(json: string) returns (restore: Restore)
      modifies this
      ensures value == if json == "" then old(value) else Some(json)
      ensures Restored(restore, value) == old(value)
    {
      if json == "" {
        return Nothing;
      }
      restore := if value.Some? then SetBack(value.value) else Unset;
      value := Some(json);
    }

    method Undo(restore: Restore)
      modifies this
      ensures value == Restored(restore, old(value))
    {
      match restore
      case Nothing =>
      case SetBack(v) => value := Some(v);
      case Unset => value := None;
    }
  }

  datatype Restore = Nothing | SetBack(value: string) | Unset

  function Restored(restore: Restore, value: Option<string>): Option<string> {
    match restore
    case Nothing => value
    case SetBack(v) => Some(v)
    case Unset => None
  }
}
