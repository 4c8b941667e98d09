/**
 * The action-backend registry: the configured table from short keys to dotted
 * class paths is checked once and resolved, and the admin's choice list is the
 * backends sorted by display name.
 *
 * `import_string` is given as a table from paths to what importing them yields;
 * a path missing from it fails to import.
 */
module ActionBackends {
  import opened Wrappers

  /** What the checks need to know of an imported class. */
  datatype BackendClass = BackendClass(derivesFromBaseAction: bool, instantiable: bool, verboseName: string)

  /** The ways the registry check fails (all raised as ImproperlyConfigured). */
  datatype ConfigurationError =
    | ImportFailed(path: string)
    | KeyTooLong(maxKeySize: nat)
    | NotABaseAction
    | DefaultMissing
    | InstantiationFailed(key: string)

  /** The configured table, as the dict's (key, dotted path) items in order; a dict's keys are distinct (see DistinctKeys). */
  type BackendConfig = seq<(string, string)>

  /** No key occurs twice, as in any dict's items. */
  predicate DistinctKeys<V>(items: seq<(string, V)>)
  {
    forall i, j :: 0 <= i < j < |items| ==> items[i].0 != items[j].0
  }

  /** The classes `import_string` resolves, by dotted path. */
  type Importable = map<string, BackendClass>

  const DefaultKey := "default"

  predicate AllImportable(config: BackendConfig, env: Importable)
  {
    forall i :: 0 <= i < |config| ==> config[i].1 in env
  }

  /** The dict comprehension `{k: import_string(v) ...}`; the first path that fails aborts it. */
  function ImportBackends(config: BackendConfig, env: Importable): (r: Result<seq<(string, BackendClass)>, ConfigurationError>)
    ensures r.Ok? <==> AllImportable(config, env)
    ensures r.Ok? ==> |r.value| == |config|
                      && forall i :: 0 <= i < |config| ==> r.value[i] == (config[i].0, env[config[i].1])
    ensures r.Err? ==> r.error.ImportFailed? && r.error.path !in env
                       && exists i :: 0 <= i < |config| && config[i].1 == r.error.path
  {
    if config == [] then Ok([])
    else if config[0].1 !in env then Err(ImportFailed(config[0].1))
    else
      var rest := ImportBackends(config[1..], env);
      assert forall i :: 1 <= i < |config| ==> config[1..][i - 1] == config[i];
      match rest
      case Ok(bs) => Ok([(config[0].0, env[config[0].1])] + bs)
      case Err(e) =>
        assert exists i :: 1 <= i < |config| && config[i].1 == e.path by {
          var i :| 0 <= i < |config[1..]| && config[1..][i].1 == e.path;
          assert config[i + 1].1 == e.path;
        }
        Err(e)
  }

  predicate KeysWithin(backends: seq<(string, BackendClass)>, maxKeySize: nat)
  {
    forall i :: 0 <= i < |backends| ==> |backends[i].0| <= maxKeySize
  }

  predicate AllBaseActions(backends: seq<(string, BackendClass)>)
  {
    forall i :: 0 <= i < |backends| ==> backends[i].1.derivesFromBaseAction
  }

  predicate HasDefault(backends: seq<(string, BackendClass)>)
  {
    exists i :: 0 <= i < |backends| && backends[i].0 == DefaultKey
  }

  predicate AllInstantiable(backends: seq<(string, BackendClass)>)
  {
    forall i :: 0 <= i < |backends| ==> backends[i].1.instantiable
  }

  /** Index of the first class that cannot be instantiated, where the list comprehension stops. */
  function FirstNotInstantiable(backends: seq<(string, BackendClass)>): (k: nat)
    requires !AllInstantiable(backends)
    ensures k < |backends| && !backends[k].1.instantiable
    ensures forall i :: 0 <= i < k ==> backends[i].1.instantiable
  {
    if !backends[0].1.instantiable then 0
    else
      assert forall i :: 1 <= i < |backends| ==> backends[1..][i - 1] == backends[i];
      1 + FirstNotInstantiable(backends[1..])
  }

  /**
   * `get_action_backends`: import every class, then check key lengths, the base
   * class, the `default` key and that every class can be instantiated, in that order.
   */
  function GetActionBackends(config: BackendConfig, env: Importable, maxKeySize: nat)
    : (r: Result<seq<(string, BackendClass)>, ConfigurationError>)
    ensures r.Ok? <==> && AllImportable(config, env)
                       && (forall i :: 0 <= i < |config| ==> |config[i].0| <= maxKeySize)
                       && (forall i :: 0 <= i < |config| ==> env[config[i].1].derivesFromBaseAction)
                       && (exists i :: 0 <= i < |config| && config[i].0 == DefaultKey)
                       && (forall i :: 0 <= i < |config| ==> env[config[i].1].instantiable)
    ensures r.Ok? ==> |r.value| == |config|
                      && forall i :: 0 <= i < |config| ==> r.value[i] == (config[i].0, env[config[i].1])
    ensures (AllImportable(config, env) && exists i :: 0 <= i < |config| && |config[i].0| > maxKeySize)
              ==> r == Err(KeyTooLong(maxKeySize))
  {
    match ImportBackends(config, env)
    case Err(e) => Err(e)
    case Ok(backends) =>
      if !KeysWithin(backends, maxKeySize) then Err(KeyTooLong(maxKeySize))
      else if !AllBaseActions(backends) then Err(NotABaseAction)
      else if !HasDefault(backends) then Err(DefaultMissing)
      else if !AllInstantiable(backends) then Err(InstantiationFailed(backends[FirstNotInstantiable(backends)].0))
      else Ok(backends)
  }

  /** The accepted registry is again a dict: its keys are the configured keys, each once. */
  lemma ResolvedKeysDistinct(config: BackendConfig, env: Importable, maxKeySize: nat)
    requires DistinctKeys(config)
    requires GetActionBackends(config, env, maxKeySize).Ok?
    ensures DistinctKeys(GetActionBackends(config, env, maxKeySize).value)
  {
    var backends := GetActionBackends(config, env, maxKeySize).value;
    forall i, j | 0 <= i < j < |backends| ensures backends[i].0 != backends[j].0 {
      assert backends[i].0 == config[i].0 && backends[j].0 == config[j].0;
    }
  }

  /** A registry without a `default` key always fails, whatever else it holds. */
  lemma MissingDefaultFails(config: BackendConfig, env: Importable, maxKeySize: nat)
    requires forall i :: 0 <= i < |config| ==> config[i].0 != DefaultKey
    ensures GetActionBackends(config, env, maxKeySize).Err?
  {
  }

  /** The reason reported is that of the first failing check: key length before base class before `default`. */
  lemma FirstFailingCheckReported(config: BackendConfig, env: Importable, maxKeySize: nat)
    requires AllImportable(config, env)
    requires forall i :: 0 <= i < |config| ==> |config[i].0| <= maxKeySize
    ensures (exists i :: 0 <= i < |config| && !env[config[i].1].derivesFromBaseAction)
              ==> GetActionBackends(config, env, maxKeySize) == Err(NotABaseAction)
    ensures ((forall i :: 0 <= i < |config| ==> env[config[i].1].derivesFromBaseAction)
             && (forall i :: 0 <= i < |config| ==> config[i].0 != DefaultKey))
              ==> GetActionBackends(config, env, maxKeySize) == Err(DefaultMissing)
  {
    var backends := ImportBackends(config, env).value;
    assert forall i :: 0 <= i < |config| ==> backends[i] == (config[i].0, env[config[i].1]);
  }

  // ---------------------------------------------------------------------------
  // action_backend_choices

  /** Python's `<=` on strings: lexicographic by code point. */
  predicate LexLe(a: string, b: string)
  {
    a == [] || (b != [] && (a[0] < b[0] || (a[0] == b[0] && LexLe(a[1..], b[1..]))))
  }

  lemma {:induction false} LexLeTotal(a: string, b: string)
    ensures LexLe(a, b) || LexLe(b, a)
  {
    if a != [] && b != [] && a[0] == b[0] {
      LexLeTotal(a[1..], b[1..]);
    }
  }

  lemma {:induction false} LexLeTransitive(a: string, b: string, c: string)
    requires LexLe(a, b) && LexLe(b, c)
    ensures LexLe(a, c)
  {
    if a != [] && b != [] && c != [] && a[0] == b[0] && b[0] == c[0] {
      LexLeTransitive(a[1..], b[1..], c[1..]);
    }
  }

  lemma {:induction false} LexLeReflexive(a: string)
    ensures LexLe(a, a)
  {
    if a != [] {
      LexLeReflexive(a[1..]);
    }
  }

  /** Sorted by the second component (the display name). */
  predicate SortedByName(s: seq<(string, string)>)
  {
    forall i, j :: 0 <= i < j < |s| ==> LexLe(s[i].1, s[j].1)
  }

  /** The entries with display name `name`, in order. */
  function WithName(s: seq<(string, string)>, name: string): seq<(string, string)>
  {
    if s == [] then [] else (if s[0].1 == name then [s[0]] else []) + WithName(s[1..], name)
  }

  /** Inserts `x` before the first entry whose name is not below `x`'s, after all entries whose name is below it. */
  function Insert(x: (string, string), s: seq<(string, string)>): (r: seq<(string, string)>)
    ensures |r| == |s| + 1
  {
    if s == [] then [x]
    else if LexLe(x.1, s[0].1) then [x] + s
    else [s[0]] + Insert(x, s[1..])
  }

  lemma {:induction false} InsertMultiset(x: (string, string), s: seq<(string, string)>)
    ensures multiset(Insert(x, s)) == multiset(s) + multiset{x}
  {
    if s != [] && !LexLe(x.1, s[0].1) {
      InsertMultiset(x, s[1..]);
      assert s == [s[0]] + s[1..];
    }
  }

  /** Insertion puts `x` before every entry with the same name, so entries of equal name keep their order. */
  lemma {:induction false} InsertWithName(x: (string, string), s: seq<(string, string)>, name: string)
    ensures WithName(Insert(x, s), name) == (if x.1 == name then [x] else []) + WithName(s, name)
  {
    if s == [] {
    } else if LexLe(x.1, s[0].1) {
      WithNameCons(x, s, name);
    } else {
      LexLeReflexive(x.1);
      var rest := Insert(x, s[1..]);
      InsertWithName(x, s[1..], name);
      WithNameCons(s[0], rest, name);
      if x.1 == name {
        assert s[0].1 != name;
      }
    }
  }

  lemma WithNameCons(h: (string, string), t: seq<(string, string)>, name: string)
    ensures WithName([h] + t, name) == (if h.1 == name then [h] else []) + WithName(t, name)
  {
    assert ([h] + t)[1..] == t;
  }

  lemma {:induction false} InsertLowerBound(x: (string, string), s: seq<(string, string)>, b: string)
    requires LexLe(b, x.1)
    requires forall i :: 0 <= i < |s| ==> LexLe(b, s[i].1)
    ensures forall i :: 0 <= i < |Insert(x, s)| ==> LexLe(b, Insert(x, s)[i].1)
  {
    if s != [] && !LexLe(x.1, s[0].1) {
      InsertLowerBound(x, s[1..], b);
      var rest := Insert(x, s[1..]);
      assert forall i :: 1 <= i < |rest| + 1 ==> ([s[0]] + rest)[i] == rest[i - 1];
    } else if s != [] {
      assert forall i :: 1 <= i < |s| + 1 ==> ([x] + s)[i] == s[i - 1];
    }
  }

  lemma SortedCons(h: (string, string), t: seq<(string, string)>)
    requires SortedByName(t)
    requires forall i :: 0 <= i < |t| ==> LexLe(h.1, t[i].1)
    ensures SortedByName([h] + t)
  {
    var r := [h] + t;
    forall i, j | 0 <= i < j < |r| ensures LexLe(r[i].1, r[j].1) {
      assert r[j] == t[j - 1];
      if i > 0 {
        assert r[i] == t[i - 1];
      }
    }
  }

  lemma {:induction false} InsertSorted(x: (string, string), s: seq<(string, string)>)
    requires SortedByName(s)
    ensures SortedByName(Insert(x, s))
  {
    if s == [] {
    } else if LexLe(x.1, s[0].1) {
      forall i | 0 <= i < |s| ensures LexLe(x.1, s[i].1) {
        if i > 0 {
          LexLeTransitive(x.1, s[0].1, s[i].1);
        }
      }
      SortedCons(x, s);
    } else {
      LexLeTotal(x.1, s[0].1);
      var tail := s[1..];
      assert SortedByName(tail) by {
        forall i, j | 0 <= i < j < |tail| ensures LexLe(tail[i].1, tail[j].1) {
          assert tail[i] == s[i + 1] && tail[j] == s[j + 1];
        }
      }
      assert forall i :: 0 <= i < |tail| ==> LexLe(s[0].1, tail[i].1) by {
        forall i | 0 <= i < |tail| ensures LexLe(s[0].1, tail[i].1) {
          assert tail[i] == s[i + 1];
        }
      }
      InsertSorted(x, tail);
      InsertLowerBound(x, tail, s[0].1);
      SortedCons(s[0], Insert(x, tail));
    }
  }

  /** `sorted(choices, key=lambda x: x[1])`: a stable insertion sort on the display name. */
  function SortByName(s: seq<(string, string)>): (r: seq<(string, string)>)
    ensures |r| == |s|
  {
    if s == [] then [] else Insert(s[0], SortByName(s[1..]))
  }

  /** The sort returns the same entries, in name order, and keeps entries with equal names in their input order. */
  lemma {:induction false} SortByNameCorrect(s: seq<(string, string)>)
    ensures SortedByName(SortByName(s))
    ensures multiset(SortByName(s)) == multiset(s)
    ensures forall name :: WithName(SortByName(s), name) == WithName(s, name)
  {
    if s != [] {
      var sortedTail := SortByName(s[1..]);
      SortByNameCorrect(s[1..]);
      InsertSorted(s[0], sortedTail);
      InsertMultiset(s[0], sortedTail);
      assert s == [s[0]] + s[1..];
      forall name ensures WithName(SortByName(s), name) == WithName(s, name) {
        InsertWithName(s[0], sortedTail, name);
      }
    }
  }

  /** The (key, verbose name) pair of each backend, in registry order. */
  function Choices(backends: seq<(string, BackendClass)>): (r: seq<(string, string)>)
    ensures |r| == |backends|
    ensures forall i :: 0 <= i < |backends| ==> r[i] == (backends[i].0, backends[i].1.verboseName)
  {
    seq(|backends|, i requires 0 <= i < |backends| => (backends[i].0, backends[i].1.verboseName))
  }

  /** `action_backend_choices`: the checked registry's pairs sorted by verbose name. */
  function ActionBackendChoices(config: BackendConfig, env: Importable, maxKeySize: nat)
    : (r: Result<seq<(string, string)>, ConfigurationError>)
    ensures (GetActionBackends(config, env, maxKeySize).Err?)
              ==> r == Err(GetActionBackends(config, env, maxKeySize).error)
    ensures r.Ok? <==> GetActionBackends(config, env, maxKeySize).Ok?
    ensures r.Ok? ==> var pairs := Choices(GetActionBackends(config, env, maxKeySize).value);
                      && SortedByName(r.value)
                      && multiset(r.value) == multiset(pairs)
                      && forall name :: WithName(r.value, name) == WithName(pairs, name)
  {
    match GetActionBackends(config, env, maxKeySize)
    case Err(e) => Err(e)
    case Ok(backends) =>
      SortByNameCorrect(Choices(backends));
      Ok(SortByName(Choices(backends)))
  }
}
