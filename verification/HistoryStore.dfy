/** Stored histories: their file names, loading and storing them, and the check every run makes. */
module HistoryStore {
  import opened Seqs

  /** What a history file holds: histories, or something that is not their JSON. Marshalling followed
      by unmarshalling is taken to give the same histories. */
  datatype Content<H> = Parsed(histories: H) | Garbage

  function Prefix(lang: string): string {
    "history." + lang + "."
  }

  function FileName(lang: string, version: string): string {
    Prefix(lang) + version + ".json"
  }

  /** The version Load reads off a file name. */
  function VersionOf(name: string, lang: string): string {
    TrimPrefix(TrimSuffix(name, ".json"), Prefix(lang))
  }

  lemma VersionOfFileName(lang: string, version: string)
    ensures VersionOf(FileName(lang, version), lang) == version
    ensures HasPrefix(FileName(lang, version), Prefix(lang))
  {
    var name := FileName(lang, version);
    assert name[|name| - 5..] == ".json";
    assert name[..|name| - 5] == Prefix(lang) + version;
    assert (Prefix(lang) + version)[|Prefix(lang)|..] == version;
  }

  /** A file without a version, history.LANG.json, is read under its whole name without ".json". */
  lemma MissingVersion(lang: string)
    ensures VersionOf("history." + lang + ".json", lang) == "history." + lang
    ensures HasPrefix("history." + lang + ".json", Prefix(lang))
  {
    var name := "history." + lang + ".json";
    var stem := "history." + lang;
    assert name == stem + ".json" && name[|name| - 5..] == ".json" && name[..|name| - 5] == stem;
    assert |stem| < |Prefix(lang)|;
    assert name[..|Prefix(lang)|] == Prefix(lang);
  }

  lemma FileNamesAre(lang: string, version: string)
    ensures FileName("go", "v1.12.0") == "history.go.v1.12.0.json"
    ensures FileName(lang, version) == "history." + lang + "." + version + ".json"
  {
    assert "history." + "go" == "history.go" && "history.go" + "." == "history.go.";
    assert "history.go." + "v1.12.0" == "history.go.v1.12.0";
    assert "history.go.v1.12.0" + ".json" == "history.go.v1.12.0.json";
  }

  /** File names of different languages never get mixed up: the language ends at the first dot
      after "history.". */
  lemma LanguagesDoNotOverlap(lang: string, other: string, version: string)
    requires '.' !in lang && '.' !in other
    ensures HasPrefix(FileName(other, version), Prefix(lang)) <==> lang == other
  {
    var name := FileName(other, version);
    SecondPiece(other, version + ".json");
    assert name == Prefix(other) + (version + ".json");
    if HasPrefix(name, Prefix(lang)) {
      assert name == Prefix(lang) + name[|Prefix(lang)|..];
      SecondPiece(lang, name[|Prefix(lang)|..]);
    }
  }

  lemma SecondPiece(lang: string, rest: string)
    requires '.' !in lang
    ensures |Split(Prefix(lang) + rest, '.')| >= 2 && Split(Prefix(lang) + rest, '.')[1] == lang
  {
    assert Prefix(lang) + rest == "history" + ['.'] + (lang + ['.'] + rest);
    SplitHead("history", '.', lang + ['.'] + rest);
    SplitHead(lang, '.', rest);
  }

  type Files<H> = map<string, Content<H>>

  /** Every file was written by Store for a dot-free language and a version without separators. */
  ghost predicate StoreWritten<H(!new)>(files: Files<H>) {
    && (forall name :: name in files ==> files[name].Parsed?)
    && (forall name :: name in files ==>
          exists lang, version :: '.' !in lang && '/' !in version && name == FileName(lang, version))
  }

  function Versions<H>(files: Files<H>, lang: string): set<string> {
    set name | name in files && HasPrefix(name, Prefix(lang)) :: VersionOf(name, lang)
  }

  /** The histories of a language, by version. */
  function View<H>(files: Files<H>, lang: string): map<string, H> {
    map version | version in Versions(files, lang) && FileName(lang, version) in files
      && files[FileName(lang, version)].Parsed? :: files[FileName(lang, version)].histories
  }

  lemma ViewHas<H(!new)>(files: Files<H>, lang: string, version: string)
    requires StoreWritten(files)
    ensures version in View(files, lang) <==> FileName(lang, version) in files
  {
    VersionOfFileName(lang, version);
    if FileName(lang, version) in files {
      assert VersionOf(FileName(lang, version), lang) in Versions(files, lang);
    }
  }

  // ----- Load and Store -----

  datatype LoadError = NotHistories(name: string)

  /** A listed file of the language that is read as `version`. */
  ghost predicate Supplies<H>(name: string, files: Files<H>, lang: string, version: string, h: H) {
    name in files && HasPrefix(name, Prefix(lang)) && VersionOf(name, lang) == version && files[name] == Parsed(h)
  }

  /** The directory entries in the order ReadDir lists them. */
  ghost predicate Lists<H>(entries: seq<string>, files: Files<H>) {
    NoDuplicates(entries) && forall name :: name in entries <==> name in files
  }

  /** No later entry is read as this version. */
  ghost predicate IsLast(seen: seq<string>, i: nat, lang: string, version: string) {
    forall j :: i < j < |seen| && HasPrefix(seen[j], Prefix(lang)) ==> VersionOf(seen[j], lang) != version
  }

  /** Every entry of the language is read under its version, and nothing else is; of several entries
      of one version the last counts. */
  ghost predicate LoadedSoFar<H>(byVersion: map<string, H>, seen: seq<string>, files: Files<H>, lang: string)
    requires forall name :: name in seen ==> name in files
  {
    && (forall name :: name in seen && HasPrefix(name, Prefix(lang)) ==> files[name].Parsed?)
    && (forall name :: name in seen && HasPrefix(name, Prefix(lang)) ==> VersionOf(name, lang) in byVersion)
    && (forall version :: version in byVersion ==>
          exists i: nat :: i < |seen| && Supplies(seen[i], files, lang, version, byVersion[version])
                           && IsLast(seen, i, lang, version))
  }

  /** A file of the language that holds no histories. */
  ghost predicate IsGarbage<H>(name: string, files: Files<H>, lang: string) {
    name in files && HasPrefix(name, Prefix(lang)) && files[name].Garbage?
  }

  /** Storage.Load over a directory listing. */
  method Load<H>(entries: seq<string>, files: Files<H>, lang: string) returns (r: Result<map<string, H>, LoadError>)
    requires Lists(entries, files)
    ensures r.Ok? ==> LoadedSoFar(r.value, entries, files, lang)
    ensures r.Err? ==>
      exists i :: 0 <= i < |entries| && entries[i] == r.error.name && IsGarbage(entries[i], files, lang)
                  && forall j :: 0 <= j < i ==> !IsGarbage(entries[j], files, lang)
  {
    var byVersion: map<string, H> := map[];
    for i := 0 to |entries|
      invariant LoadedSoFar(byVersion, entries[..i], files, lang)
    {
      var name := entries[i];
      assert entries[..i + 1] == entries[..i] + [name];
      if !HasPrefix(name, Prefix(lang)) {
        LoadsNothing(byVersion, entries[..i], name, files, lang);
        continue;
      }
      match files[name]
      case Garbage =>
        forall j | 0 <= j < i
          ensures !IsGarbage(entries[j], files, lang)
        {
          assert entries[j] in entries[..i];
        }
        return Err(NotHistories(name));
      case Parsed(h) =>
        LoadsOne(byVersion, entries[..i], name, files, lang, h);
        byVersion := byVersion[VersionOf(name, lang) := h];
    }
    assert entries[..|entries|] == entries;
    r := Ok(byVersion);
  }

  lemma LoadsNothing<H>(byVersion: map<string, H>, seen: seq<string>, name: string, files: Files<H>, lang: string)
    requires name in files && (forall n :: n in seen ==> n in files) && !HasPrefix(name, Prefix(lang))
    requires LoadedSoFar(byVersion, seen, files, lang)
    ensures LoadedSoFar(byVersion, seen + [name], files, lang)
  {
    var all := seen + [name];
    forall version | version in byVersion
      ensures exists i: nat :: i < |all| && Supplies(all[i], files, lang, version, byVersion[version])
                               && IsLast(all, i, lang, version)
    {
      var i: nat :| i < |seen| && Supplies(seen[i], files, lang, version, byVersion[version])
                    && IsLast(seen, i, lang, version);
      assert all[i] == seen[i] && IsLast(all, i, lang, version);
    }
  }

  lemma LoadsOne<H>(byVersion: map<string, H>, seen: seq<string>, name: string, files: Files<H>, lang: string, h: H)
    requires name in files && (forall n :: n in seen ==> n in files)
    requires HasPrefix(name, Prefix(lang)) && files[name] == Parsed(h)
    requires LoadedSoFar(byVersion, seen, files, lang)
    ensures LoadedSoFar(byVersion[VersionOf(name, lang) := h], seen + [name], files, lang)
  {
    var (all, after) := (seen + [name], byVersion[VersionOf(name, lang) := h]);
    forall version | version in after
      ensures exists i: nat :: i < |all| && Supplies(all[i], files, lang, version, after[version])
                               && IsLast(all, i, lang, version)
    {
      if version == VersionOf(name, lang) {
        assert Supplies(all[|seen|], files, lang, version, h) && IsLast(all, |seen|, lang, version);
      } else {
        var i: nat :| i < |seen| && Supplies(seen[i], files, lang, version, byVersion[version])
                      && IsLast(seen, i, lang, version);
        assert all[i] == seen[i] && IsLast(all, i, lang, version);
      }
    }
  }

  /** What is loaded is determined by the listing. */
  lemma LoadIsUnique<H>(a: map<string, H>, b: map<string, H>, entries: seq<string>, files: Files<H>, lang: string)
    requires forall name :: name in entries ==> name in files
    requires LoadedSoFar(a, entries, files, lang) && LoadedSoFar(b, entries, files, lang)
    ensures a == b
  {
    LoadIsIncluded(a, b, entries, files, lang);
    LoadIsIncluded(b, a, entries, files, lang);
  }

  lemma LoadIsIncluded<H>(a: map<string, H>, b: map<string, H>, entries: seq<string>, files: Files<H>, lang: string)
    requires forall name :: name in entries ==> name in files
    requires LoadedSoFar(a, entries, files, lang) && LoadedSoFar(b, entries, files, lang)
    ensures forall version :: version in a ==> version in b && a[version] == b[version]
  {
    hide HasPrefix, VersionOf, Prefix;
    forall version | version in a
      ensures version in b && a[version] == b[version]
    {
      var i: nat :| i < |entries| && Supplies(entries[i], files, lang, version, a[version])
                    && IsLast(entries, i, lang, version);
      var k: nat :| k < |entries| && Supplies(entries[k], files, lang, version, b[version])
                    && IsLast(entries, k, lang, version);
      assert !(i < k) && !(k < i);
    }
  }

  /** On a directory written by Store, Load gives exactly the view, whatever the listing order. */
  lemma LoadIsView<H(!new)>(entries: seq<string>, files: Files<H>, lang: string, loaded: map<string, H>)
    requires Lists(entries, files) && StoreWritten(files) && '.' !in lang
    requires LoadedSoFar(loaded, entries, files, lang)
    ensures loaded == View(files, lang)
  {
    hide HasPrefix;
    forall name | name in entries && HasPrefix(name, Prefix(lang))
      ensures name == FileName(lang, VersionOf(name, lang))
    {
      var other, version :| '.' !in other && '/' !in version && name == FileName(other, version);
      LanguagesDoNotOverlap(lang, other, version);
      VersionOfFileName(lang, version);
    }
    forall version
      ensures version in loaded <==> version in View(files, lang)
      ensures version in loaded ==> loaded[version] == View(files, lang)[version]
    {
      ViewHas(files, lang, version);
      VersionOfFileName(lang, version);
    }
  }

  /** A directory of histories. */
  class Directory<H> {
    var files: Files<H>

    constructor ()
      ensures files == map[]
    {
      files := map[];
    }

    /** Storage.Store: every version is written, overwriting if it exists, in any order. */
    method Store(lang: string, byVersion: map<string, H>)
      modifies this
      ensures files == old(files) + Written(lang, byVersion)
    {
      hide Written, FileName;
      var left := byVersion.Keys;
      NothingWritten<H>(lang);
      assert byVersion - left == map[];
      while left != {}
        invariant left <= byVersion.Keys
        invariant files == old(files) + Written(lang, byVersion - left)
        decreases left
      {
        var version :| version in left;
        var h := byVersion[version];
        WrittenExtends(lang, byVersion - left, version, h);
        assert (byVersion - left)[version := h] == byVersion - (left - {version});
        files := files[FileName(lang, version) := Parsed(h)];
        left := left - {version};
      }
      assert byVersion - {} == byVersion;
    }
  }

  /** The files of a set of histories. */
  function Written<H>(lang: string, byVersion: map<string, H>): Files<H> {
    map name | name in (set v | v in byVersion :: FileName(lang, v)) && VersionOf(name, lang) in byVersion
      && name == FileName(lang, VersionOf(name, lang)) :: Parsed(byVersion[VersionOf(name, lang)])
  }

  lemma InWritten<H>(lang: string, byVersion: map<string, H>, version: string)
    requires version in byVersion
    ensures FileName(lang, version) in Written(lang, byVersion)
    ensures Written(lang, byVersion)[FileName(lang, version)] == Parsed(byVersion[version])
  {
    VersionOfFileName(lang, version);
  }

  lemma NothingWritten<H>(lang: string)
    ensures Written<H>(lang, map[]) == map[]
  {
  }

  lemma WrittenExtends<H>(lang: string, byVersion: map<string, H>, version: string, h: H)
    ensures Written(lang, byVersion[version := h])
         == Written(lang, byVersion)[FileName(lang, version) := Parsed(h)]
  {
    var (more, file) := (byVersion[version := h], FileName(lang, version));
    InWritten(lang, more, version);
    VersionOfFileName(lang, version);
    forall name
      ensures name in Written(lang, more) <==> name in Written(lang, byVersion) || name == file
      ensures name in Written(lang, more) && name != file ==>
        Written(lang, more)[name] == Written(lang, byVersion)[name]
    {
      hide FileName;
      var v := VersionOf(name, lang);
      if name in Written(lang, byVersion) {
        WrittenIs(lang, byVersion, name);
        InWritten(lang, more, v);
      }
      if name in Written(lang, more) {
        WrittenIs(lang, more, name);
        if name != file {
          InWritten(lang, byVersion, v);
        }
      }
    }
  }

  /** A written file is the file of the version read off its name. */
  lemma WrittenIs<H>(lang: string, byVersion: map<string, H>, name: string)
    requires name in Written(lang, byVersion)
    ensures VersionOf(name, lang) in byVersion && name == FileName(lang, VersionOf(name, lang))
  {
  }

  lemma WrittenHas<H>(lang: string, byVersion: map<string, H>, other: string, version: string)
    requires '.' !in lang && '.' !in other
    ensures FileName(other, version) in Written(lang, byVersion) <==> other == lang && version in byVersion
    ensures other == lang && version in byVersion ==>
      Written(lang, byVersion)[FileName(other, version)] == Parsed(byVersion[version])
  {
    VersionOfFileName(other, version);
    if version in byVersion {
      InWritten(lang, byVersion, version);
    }
    if FileName(other, version) in Written(lang, byVersion) {
      var v := VersionOf(FileName(other, version), lang);
      VersionOfFileName(lang, v);
      LanguagesDoNotOverlap(lang, other, version);
    }
  }

  lemma StaysStoreWritten<H(!new)>(files: Files<H>, lang: string, byVersion: map<string, H>)
    requires StoreWritten(files) && '.' !in lang
    requires forall v :: v in byVersion ==> '/' !in v
    ensures StoreWritten(files + Written(lang, byVersion))
  {
    var files' := files + Written(lang, byVersion);
    forall name | name in files'
      ensures files'[name].Parsed?
      ensures exists l, v :: '.' !in l && '/' !in v && name == FileName(l, v)
    {
      if name in Written(lang, byVersion) {
        assert name == FileName(lang, VersionOf(name, lang));
      }
    }
  }

  /** Loading after storing gives the previous histories overridden by the stored ones, and storing
      for one language leaves every other language's histories as they were. */
  lemma LoadAfterStore<H(!new)>(files: Files<H>, lang: string, byVersion: map<string, H>, other: string)
    requires StoreWritten(files) && '.' !in lang && '.' !in other
    requires forall v :: v in byVersion ==> '/' !in v
    ensures var files' := files + Written(lang, byVersion);
      && StoreWritten(files')
      && View(files', other) == if other == lang then View(files, lang) + byVersion else View(files, other)
  {
    StaysStoreWritten(files, lang, byVersion);
    hide StoreWritten, View, Written;
    if other == lang {
      ViewUpdated(files, lang, byVersion);
    } else {
      ViewUnchanged(files, lang, byVersion, other);
    }
  }

  lemma ViewUpdated<H(!new)>(files: Files<H>, lang: string, byVersion: map<string, H>)
    requires StoreWritten(files) && StoreWritten(files + Written(lang, byVersion)) && '.' !in lang
    ensures View(files + Written(lang, byVersion), lang) == View(files, lang) + byVersion
  {
    hide StoreWritten, View, Written;
    forall version {
      ViewAfterStore(files, lang, byVersion, lang, version);
    }
  }

  lemma ViewUnchanged<H(!new)>(files: Files<H>, lang: string, byVersion: map<string, H>, other: string)
    requires StoreWritten(files) && StoreWritten(files + Written(lang, byVersion))
    requires '.' !in lang && '.' !in other && other != lang
    ensures View(files + Written(lang, byVersion), other) == View(files, other)
  {
    hide StoreWritten, View, Written;
    forall version {
      ViewAfterStore(files, lang, byVersion, other, version);
    }
  }

  lemma ViewAfterStore<H(!new)>(files: Files<H>, lang: string, byVersion: map<string, H>, other: string,
                                version: string)
    requires StoreWritten(files) && StoreWritten(files + Written(lang, byVersion))
    requires '.' !in lang && '.' !in other
    ensures var after := View(files + Written(lang, byVersion), other);
      && (other == lang && version in byVersion ==> version in after && after[version] == byVersion[version])
      && (!(other == lang && version in byVersion) ==>
            (version in after <==> version in View(files, other))
            && (version in after ==> after[version] == View(files, other)[version]))
  {
    hide Versions, FileName, StoreWritten, Written;
    ViewHas(files + Written(lang, byVersion), other, version);
    ViewHas(files, other, version);
    WrittenHas(lang, byVersion, other, version);
  }
}
