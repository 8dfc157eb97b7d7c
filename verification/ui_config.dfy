/**
 * The UI preferences store: a JSON-like tree read and written through
 * dotted keys ("window.width"), loaded by merging a saved file over the
 * defaults, plus the theme and window helpers built on it. Saving to and
 * loading from disk are not modelled; a loaded file arrives as a value.
 */
module UiConfig {
  import opened Wrappers
  import opened Text
  import opened Values
  import OrderedMap

  /** Every dictionary in the value, at any depth, binds each key once: what `json.load` produces. */
  predicate WellFormed(v: Value) {
    match v
    case Dict(e) => OrderedMap.UniqueKeys(e) && forall i :: 0 <= i < |e| ==> WellFormed(e[i].1)
    case List(items) => forall i :: 0 <= i < |items| ==> WellFormed(items[i])
    case _ => true
  }

  predicate WellFormedEntries(e: Entries) {
    WellFormed(Dict(e))
  }

  /** `DEFAULT_UI_CONFIG`. */
  const DefaultConfig: Entries := [
    ("theme", Str("darkly")),
    ("window", Dict([("width", Int(1200)), ("height", Int(800)), ("maximized", Bool(false)), ("remember_size", Bool(true))])),
    ("interface", Dict([("show_tooltips", Bool(true)), ("auto_refresh", Bool(true)), ("refresh_interval", Int(5000)),
                        ("show_debug_info", Bool(false)), ("compact_mode", Bool(false))])),
    ("notifications", Dict([("show_connection_status", Bool(true)), ("show_message_notifications", Bool(true)),
                            ("sound_enabled", Bool(false))])),
    ("chat", Dict([("message_history_limit", Int(100)), ("auto_scroll", Bool(true)), ("show_timestamps", Bool(true)),
                   ("show_node_ids", Bool(false))]))
  ]

  /** One entry of `AVAILABLE_THEMES`. */
  datatype ThemeInfo = ThemeInfo(name: string, kind: string, description: string)

  const AvailableThemes: seq<(string, ThemeInfo)> := [
    ("darkly", ThemeInfo("Darkly", "dark", "Modern dark theme")),
    ("superhero", ThemeInfo("Superhero", "dark", "Dark blue theme")),
    ("cyborg", ThemeInfo("Cyborg", "dark", "Dark with cyan accents")),
    ("solar", ThemeInfo("Solar", "dark", "Dark with orange accents")),
    ("vapor", ThemeInfo("Vapor", "dark", "Dark purple theme")),
    ("flatly", ThemeInfo("Flatly", "light", "Clean light theme")),
    ("cosmo", ThemeInfo("Cosmo", "light", "Modern light theme")),
    ("journal", ThemeInfo("Journal", "light", "Newspaper style")),
    ("litera", ThemeInfo("Litera", "light", "Clean typography")),
    ("minty", ThemeInfo("Minty", "light", "Fresh green accents"))
  ]

  // ---------------------------------------------------------------------
  // _merge_config

  /** What a saved value does to the default it lands on: two dictionaries merge, otherwise the saved value wins. */
  function MergedValue(dflt: Value, saved: Value): Value
  {
    if saved.Dict? && dflt.Dict? then Dict(Merge(dflt.entries, saved.entries)) else saved
  }

  /**
   * `_merge_config(default, saved)`: walk the saved entries in order; a key
   * the defaults do not have is ignored, a key they do have takes the
   * merged value in place.
   */
  function Merge(dflt: Entries, saved: Entries): (r: Entries)
    ensures OrderedMap.Keys(r) == OrderedMap.Keys(dflt)
    decreases saved
  {
    if |saved| == 0 then dflt
    else
      var k := saved[0].0;
      var v := saved[0].1;
      assert v < saved[0];
      var next := match OrderedMap.Lookup(dflt, k)
        case None => dflt
        case Some(cur) => OrderedMap.Put(dflt, k, if v.Dict? && cur.Dict? then Dict(Merge(cur.entries, v.entries)) else v);
      Merge(next, saved[1..])
  }

  /**
   * The merge bound by bound: a default key the saved config also has takes
   * the merged value, every other default key keeps its value, and no key
   * is added.
   */
  lemma {:induction false} MergeLookup(dflt: Entries, saved: Entries, k: string)
    requires OrderedMap.UniqueKeys(saved)
    ensures OrderedMap.Lookup(Merge(dflt, saved), k) ==
      if Has(dflt, k) && Has(saved, k)
      then Some(MergedValue(OrderedMap.Lookup(dflt, k).value, OrderedMap.Lookup(saved, k).value))
      else OrderedMap.Lookup(dflt, k)
    decreases saved
  {
    if |saved| > 0 {
      var k0 := saved[0].0;
      var v0 := saved[0].1;
      var next := match OrderedMap.Lookup(dflt, k0)
        case None => dflt
        case Some(cur) => OrderedMap.Put(dflt, k0, MergedValue(cur, v0));
      var rest := saved[1..];
      TailUnique(saved);
      assert Merge(dflt, saved) == Merge(next, rest);
      MergeLookup(next, rest, k);
      assert OrderedMap.Keys(next) == OrderedMap.Keys(dflt);
      if k == k0 {
        assert OrderedMap.Lookup(saved, k) == Some(v0);
      } else {
        assert OrderedMap.Lookup(next, k) == OrderedMap.Lookup(dflt, k);
        assert OrderedMap.Lookup(saved, k) == OrderedMap.Lookup(rest, k);
      }
    }
  }

  /** Past the first binding the keys stay unique, and the first key does not come back. */
  lemma TailUnique<V>(saved: seq<(string, V)>)
    requires |saved| > 0 && OrderedMap.UniqueKeys(saved)
    ensures OrderedMap.UniqueKeys(saved[1..]) && !(saved[0].0 in OrderedMap.Keys(saved[1..]))
    ensures OrderedMap.Keys(saved) == [saved[0].0] + OrderedMap.Keys(saved[1..])
  {
    var rest := saved[1..];
    forall i, j | 0 <= i < j < |rest| ensures rest[i].0 != rest[j].0 {
      assert rest[i] == saved[i + 1] && rest[j] == saved[j + 1];
    }
    forall i | 0 <= i < |rest| ensures OrderedMap.Keys(rest)[i] != saved[0].0 {
      assert rest[i] == saved[i + 1];
    }
  }

  /** Keys being unique depends only on the key sequence. */
  lemma SameKeysUnique<V>(a: seq<(string, V)>, b: seq<(string, V)>)
    requires OrderedMap.Keys(a) == OrderedMap.Keys(b) && OrderedMap.UniqueKeys(a)
    ensures OrderedMap.UniqueKeys(b)
  {
    forall i, j | 0 <= i < j < |b| ensures b[i].0 != b[j].0 {
      assert OrderedMap.Keys(a)[i] == OrderedMap.Keys(b)[i];
      assert OrderedMap.Keys(a)[j] == OrderedMap.Keys(b)[j];
    }
  }

  /** Two dictionaries with the same keys in the same order and the same bindings are the same dictionary. */
  lemma SameBindingsEqual(a: Entries, b: Entries)
    requires OrderedMap.UniqueKeys(a) && OrderedMap.Keys(a) == OrderedMap.Keys(b)
    requires forall k :: OrderedMap.Lookup(a, k) == OrderedMap.Lookup(b, k)
    ensures a == b
  {
    SameKeysUnique(a, b);
    forall i | 0 <= i < |a| ensures a[i] == b[i] {
      assert OrderedMap.Keys(a)[i] == OrderedMap.Keys(b)[i];
      OrderedMap.LookupAtIndex(a, i);
      OrderedMap.LookupAtIndex(b, i);
    }
  }

  /** The value a lookup finds in a well-formed dictionary is well-formed and ranks below it. */
  lemma LookupWellFormed(e: Entries, k: string) returns (i: nat)
    requires WellFormedEntries(e) && Has(e, k)
    ensures i < |e| && e[i].0 == k && OrderedMap.Lookup(e, k) == Some(e[i].1)
    ensures WellFormed(e[i].1)
  {
    i :| 0 <= i < |e| && OrderedMap.Keys(e)[i] == k;
    OrderedMap.LookupAtIndex(e, i);
  }

  /** A well-formed dictionary merged onto itself is unchanged. */
  lemma {:induction false} MergeSelf(x: Entries)
    requires WellFormedEntries(x)
    ensures Merge(x, x) == x
    decreases x
  {
    forall k ensures OrderedMap.Lookup(Merge(x, x), k) == OrderedMap.Lookup(x, k) {
      MergeLookup(x, x, k);
      if Has(x, k) {
        var i := LookupWellFormed(x, k);
        if x[i].1.Dict? {
          assert x[i].1 < x[i];
          MergeSelf(x[i].1.entries);
        }
      }
    }
    SameBindingsEqual(x, Merge(x, x));
  }

  /** Merging an empty saved config is the identity. */
  lemma MergeEmpty(dflt: Entries)
    ensures Merge(dflt, []) == dflt
  {
  }

  /** Merging the same well-formed saved config twice is the same as merging it once. */
  lemma {:induction false} MergeIdempotent(dflt: Entries, saved: Entries)
    requires WellFormedEntries(dflt) && WellFormedEntries(saved)
    ensures Merge(Merge(dflt, saved), saved) == Merge(dflt, saved)
    decreases saved, 1
  {
    var once := Merge(dflt, saved);
    SameKeysUnique(dflt, once);
    forall k ensures OrderedMap.Lookup(Merge(once, saved), k) == OrderedMap.Lookup(once, k) {
      MergeIdempotentAt(dflt, saved, k);
    }
    SameBindingsEqual(once, Merge(once, saved));
  }

  /** One key of `MergeIdempotent`. */
  lemma {:induction false} MergeIdempotentAt(dflt: Entries, saved: Entries, k: string)
    requires WellFormedEntries(dflt) && WellFormedEntries(saved)
    ensures OrderedMap.Lookup(Merge(Merge(dflt, saved), saved), k) == OrderedMap.Lookup(Merge(dflt, saved), k)
    decreases saved, 0
  {
    var once := Merge(dflt, saved);
    MergeLookup(once, saved, k);
    MergeLookup(dflt, saved, k);
    if Has(dflt, k) && Has(saved, k) {
      var i := LookupWellFormed(saved, k);
      var j := LookupWellFormed(dflt, k);
      var sv := saved[i].1;
      var dv := dflt[j].1;
      assert OrderedMap.Lookup(once, k) == Some(MergedValue(dv, sv));
      if sv.Dict? {
        assert sv < saved[i];
        if dv.Dict? {
          MergeIdempotent(dv.entries, sv.entries);
        } else {
          MergeSelf(sv.entries);
        }
      }
    }
  }

  // ---------------------------------------------------------------------
  // get / set with dotted keys

  /** Walk `path` from `v`; `None` where Python raises KeyError (missing key) or TypeError (not a dict). */
  function GetPath(v: Value, path: seq<string>): Option<Value>
    decreases |path|
  {
    if |path| == 0 then Some(v)
    else if v.Dict? && Has(v.entries, path[0]) then GetPath(OrderedMap.Lookup(v.entries, path[0]).value, path[1..])
    else None
  }

  /** `get(key, default)`. */
  function Get(config: Entries, key: string, dflt: Value): (r: Value)
    ensures GetPath(Dict(config), Split(key, '.')).Some? ==> r == GetPath(Dict(config), Split(key, '.')).value
    ensures GetPath(Dict(config), Split(key, '.')).None? ==> r == dflt
  {
    GetPath(Dict(config), Split(key, '.')).GetOr(dflt)
  }

  /**
   * Assign `v` at `path` below the dictionary `e`, creating missing
   * intermediate dictionaries; `None` where Python raises TypeError because
   * an existing intermediate value is not a dictionary.
   */
  function SetPath(e: Entries, path: seq<string>, v: Value): Option<Entries>
    requires |path| >= 1
    decreases |path|
  {
    if |path| == 1 then Some(OrderedMap.Put(e, path[0], v))
    else
      var k := path[0];
      match OrderedMap.Lookup(e, k)
      case None =>
        var sub := SetPath([], path[1..], v);
        if sub.Some? then Some(OrderedMap.Put(e, k, Dict(sub.value))) else None
      case Some(cur) =>
        if !cur.Dict? then None
        else
          var sub := SetPath(cur.entries, path[1..], v);
          if sub.Some? then Some(OrderedMap.Put(e, k, Dict(sub.value))) else None
  }

  /** Some proper prefix of `path` names an existing value that is not a dictionary. */
  predicate BlockedPath(e: Entries, path: seq<string>) {
    exists j :: 1 <= j < |path| && BlockedAt(e, path, j)
  }

  predicate BlockedAt(e: Entries, path: seq<string>, j: int)
    requires 0 <= j <= |path|
  {
    var w := GetPath(Dict(e), path[..j]);
    w.Some? && !w.value.Dict?
  }

  /** A path walked from an empty dictionary meets nothing in the way. */
  lemma {:induction false} SetPathFresh(path: seq<string>, v: Value)
    requires |path| >= 1
    ensures SetPath([], path, v).Some?
    decreases |path|
  {
    if |path| > 1 {
      SetPathFresh(path[1..], v);
    }
  }

  lemma GetPathStep(e: Entries, path: seq<string>, j: int)
    requires 1 <= j <= |path|
    ensures GetPath(Dict(e), path[..j]) ==
      if Has(e, path[0]) then GetPath(OrderedMap.Lookup(e, path[0]).value, path[1..][..j - 1]) else None
  {
    assert path[..j][0] == path[0];
    assert path[..j][1..] == path[1..][..j - 1];
  }

  /** `set` fails exactly when an existing intermediate value is not a dictionary. */
  lemma {:induction false} SetPathFails(e: Entries, path: seq<string>, v: Value)
    requires |path| >= 1
    ensures SetPath(e, path, v).None? <==> BlockedPath(e, path)
    decreases |path|
  {
    if |path| > 1 {
      var k := path[0];
      match OrderedMap.Lookup(e, k)
      case None =>
        SetPathFresh(path[1..], v);
        forall j | 1 <= j < |path| ensures !BlockedAt(e, path, j) {
          GetPathStep(e, path, j);
        }
      case Some(cur) =>
        if !cur.Dict? {
          GetPathStep(e, path, 1);
          assert BlockedAt(e, path, 1);
        } else {
          SetPathFails(cur.entries, path[1..], v);
          forall j | 1 <= j < |path| ensures BlockedAt(e, path, j) <==> (j >= 2 && BlockedAt(cur.entries, path[1..], j - 1)) {
            GetPathStep(e, path, j);
            if j >= 2 {
              GetPathStep(cur.entries, path[1..], j - 1);
            }
          }
          if BlockedPath(cur.entries, path[1..]) {
            var j :| 1 <= j < |path| - 1 && BlockedAt(cur.entries, path[1..], j);
            assert BlockedAt(e, path, j + 1);
          }
        }
    }
  }

  /** After a successful assignment the path reads back the assigned value. */
  lemma {:induction false} GetAfterSetPath(e: Entries, path: seq<string>, v: Value)
    requires |path| >= 1 && SetPath(e, path, v).Some?
    ensures GetPath(Dict(SetPath(e, path, v).value), path) == Some(v)
    decreases |path|
  {
    if |path| > 1 {
      match OrderedMap.Lookup(e, path[0])
      case None => GetAfterSetPath([], path[1..], v);
      case Some(cur) => GetAfterSetPath(cur.entries, path[1..], v);
    }
  }

  predicate IsPrefix(p: seq<string>, q: seq<string>) {
    |p| <= |q| && q[..|p|] == p
  }

  /** An assignment leaves every path that is neither above nor below the assigned one as it was. */
  lemma {:induction false} SetPathKeepsOthers(e: Entries, path: seq<string>, v: Value, p: seq<string>)
    ensures |path| >= 1 && SetPath(e, path, v).Some? && !IsPrefix(p, path) && !IsPrefix(path, p) &&
            GetPath(Dict(e), p).Some? ==>
      GetPath(Dict(SetPath(e, path, v).value), p) == GetPath(Dict(e), p)
    decreases |path|
  {
    if !(|path| >= 1 && SetPath(e, path, v).Some? && !IsPrefix(p, path) && !IsPrefix(path, p) &&
         GetPath(Dict(e), p).Some?) {
      return;
    }
    var e' := SetPath(e, path, v).value;
    assert |p| >= 1;
    if p[0] != path[0] {
      assert OrderedMap.Lookup(e', p[0]) == OrderedMap.Lookup(e, p[0]);
    } else {
      assert |path| > 1 && |p| > 1;
      var cur := OrderedMap.Lookup(e, p[0]).value;
      assert cur.Dict?;
      assert !IsPrefix(p[1..], path[1..]) && !IsPrefix(path[1..], p[1..]);
      SetPathKeepsOthers(cur.entries, path[1..], v, p[1..]);
    }
  }

  /** `set(key, value)`: the assignment, or the configuration unchanged when it raises. */
  function Set(config: Entries, key: string, v: Value): (r: Entries)
    ensures BlockedPath(config, Split(key, '.')) ==> r == config
    ensures !BlockedPath(config, Split(key, '.')) ==> Get(r, key, Null) == v
  {
    var path := Split(key, '.');
    SetPathFails(config, path, v);
    match SetPath(config, path, v)
    case None => config
    case Some(r) => GetAfterSetPath(config, path, v); r
  }

  /** A successful `set` leaves every unrelated dotted key reading as before. */
  lemma SetKeepsOtherKeys(config: Entries, key: string, v: Value, other: string)
    requires !BlockedPath(config, Split(key, '.'))
    requires !IsPrefix(Split(other, '.'), Split(key, '.')) && !IsPrefix(Split(key, '.'), Split(other, '.'))
    requires GetPath(Dict(config), Split(other, '.')).Some?
    ensures Get(Set(config, key, v), other, Null) == Get(config, other, Null)
  {
    SetPathFails(config, Split(key, '.'), v);
    SetPathKeepsOthers(config, Split(key, '.'), v, Split(other, '.'));
  }

  // ---------------------------------------------------------------------
  // load_config, themes and the window settings

  /**
   * `load_config`: `None` stands for a missing, unreadable or unparsable
   * file; a parsed file that is not a JSON object makes `.items()` raise,
   * which leaves the defaults too.
   */
  function LoadConfig(saved: Option<Value>): (r: Entries)
    ensures OrderedMap.Keys(r) == OrderedMap.Keys(DefaultConfig)
    ensures saved.None? || !saved.value.Dict? ==> r == DefaultConfig
  {
    if saved.Some? && saved.value.Dict? then Merge(DefaultConfig, saved.value.entries) else DefaultConfig
  }

  /** A loaded configuration binds each default key to the saved value (merged with the default when both are objects). */
  lemma LoadConfigBindings(saved: Entries, k: string)
    requires WellFormedEntries(saved) && Has(DefaultConfig, k)
    ensures OrderedMap.Lookup(LoadConfig(Some(Dict(saved))), k) ==
      if Has(saved, k)
      then Some(MergedValue(OrderedMap.Lookup(DefaultConfig, k).value, OrderedMap.Lookup(saved, k).value))
      else OrderedMap.Lookup(DefaultConfig, k)
  {
    MergeLookup(DefaultConfig, saved, k);
  }

  /** Loading the same file again over a loaded configuration changes nothing. */
  lemma LoadConfigStable(saved: Entries)
    requires WellFormedEntries(saved)
    ensures Merge(LoadConfig(Some(Dict(saved))), saved) == LoadConfig(Some(Dict(saved)))
  {
    DefaultConfigWellFormed();
    MergeIdempotent(DefaultConfig, saved);
  }

  /** No level of the default configuration repeats a key. */
  lemma DefaultConfigWellFormed()
    ensures WellFormedEntries(DefaultConfig)
  {
    var d := DefaultConfig;
    assert OrderedMap.UniqueKeys(d) by {
      forall i, j | 0 <= i < j < |d| ensures d[i].0 != d[j].0 { }
    }
    forall k | 1 <= k < |d|
      ensures WellFormed(d[k].1)
    {
      SectionWellFormed(k);
    }
  }

  lemma SectionWellFormed(k: nat)
    requires 1 <= k < |DefaultConfig|
    ensures WellFormed(DefaultConfig[k].1)
  {
    var e := DefaultConfig[k].1.entries;
    assert forall i :: 0 <= i < |e| ==> e[i].1.Int? || e[i].1.Bool?;
    forall i, j | 0 <= i < j < |e| ensures e[i].0 != e[j].0 { }
  }

  function ThemeNames(): seq<string> {
    OrderedMap.Keys(AvailableThemes)
  }

  /** `get_theme()`. */
  function GetTheme(config: Entries): (r: Value)
    ensures !Has(config, "theme") ==> r == Str("darkly")
  {
    Get(config, "theme", Str("darkly"))
  }

  /** `set_theme(theme)`: only a known theme is stored. */
  function SetTheme(config: Entries, theme: string): (r: Entries)
    ensures theme !in ThemeNames() ==> r == config
    ensures theme in ThemeNames() ==> GetTheme(r) == Str(theme)
  {
    if theme in ThemeNames() then
      ThemePathOpen(config);
      Set(config, "theme", Str(theme))
    else config
  }

  /** "theme" is a one-step path, which nothing can block. */
  lemma ThemePathOpen(config: Entries)
    ensures Split("theme", '.') == ["theme"] && !BlockedPath(config, ["theme"])
  {
    SplitNoSep("theme", '.');
  }

  /** `get_theme_info(theme)`: `None` is the empty dict returned for an unknown theme. */
  function GetThemeInfo(theme: string): (r: Option<ThemeInfo>)
    ensures r.Some? <==> theme in ThemeNames()
  {
    OrderedMap.Lookup(AvailableThemes, theme)
  }

  /** The five dark themes are listed first, the five light ones after. */
  lemma ThemeKinds()
    ensures |AvailableThemes| == 10
    ensures forall i :: 0 <= i < 5 ==> AvailableThemes[i].1.kind == "dark"
    ensures forall i :: 5 <= i < 10 ==> AvailableThemes[i].1.kind == "light"
  {
  }

  /** `set_window_config(width, height, maximized)`: each given field is assigned in turn. */
  function SetWindowConfig(config: Entries, width: Option<Value>, height: Option<Value>, maximized: Option<Value>): Entries
  {
    var c1 := if width.Some? then Set(config, "window.width", width.value) else config;
    var c2 := if height.Some? then Set(c1, "window.height", height.value) else c1;
    if maximized.Some? then Set(c2, "window.maximized", maximized.value) else c2
  }

  /** The window object, when `window` names one. */
  predicate WindowIsDict(config: Entries) {
    Has(config, "window") && OrderedMap.Lookup(config, "window").value.Dict?
  }

  /** A dotted key with one dot names a two-step path. */
  lemma DottedPair(a: string, b: string)
    requires '.' !in a && '.' !in b
    ensures Split(a + "." + b, '.') == [a, b]
  {
    assert a + "." + b == a + ['.'] + b;
    SplitAppend(a, b, '.');
    SplitNoSep(b, '.');
  }

  lemma WindowPaths()
    ensures Split("window.width", '.') == ["window", "width"]
    ensures Split("window.height", '.') == ["window", "height"]
    ensures Split("window.maximized", '.') == ["window", "maximized"]
  {
    WidthPath();
    HeightPath();
    MaximizedPath();
  }

  lemma WidthPath()
    ensures Split("window.width", '.') == ["window", "width"]
  {
    assert "window.width" == "window" + "." + "width";
    DottedPair("window", "width");
  }

  lemma HeightPath()
    ensures Split("window.height", '.') == ["window", "height"]
  {
    assert "window.height" == "window" + "." + "height";
    DottedPair("window", "height");
  }

  lemma MaximizedPath()
    ensures Split("window.maximized", '.') == ["window", "maximized"]
  {
    assert "window.maximized" == "window" + "." + "maximized";
    DottedPair("window", "maximized");
  }

  /** A window field can be assigned unless `window` holds something other than an object. */
  lemma WindowFieldSettable(config: Entries, field: string)
    requires WindowIsDict(config) || !Has(config, "window")
    ensures !BlockedPath(config, ["window", field])
  {
    var path := ["window", field];
    assert path[..1] == ["window"];
    assert GetPath(Dict(config), ["window"]) ==
      if Has(config, "window") then GetPath(OrderedMap.Lookup(config, "window").value, []) else None;
    assert !BlockedAt(config, path, 1);
  }

  /** Reading a two-step path. */
  lemma GetPathTwo(e: Entries, a: string, b: string)
    ensures GetPath(Dict(e), [a, b]) ==
      if Has(e, a) && OrderedMap.Lookup(e, a).value.Dict? && Has(OrderedMap.Lookup(e, a).value.entries, b)
      then Some(OrderedMap.Lookup(OrderedMap.Lookup(e, a).value.entries, b).value)
      else None
  {
    assert [a, b][1..] == [b];
    assert [b][1..] == [];
    if Has(e, a) {
      var w := OrderedMap.Lookup(e, a).value;
      assert GetPath(Dict(e), [a, b]) == GetPath(w, [b]);
      if w.Dict? && Has(w.entries, b) {
        assert GetPath(w, [b]) == GetPath(OrderedMap.Lookup(w.entries, b).value, []);
      }
    }
  }

  /** One assignment of a window field: it reads back, the window stays an object, the other fields keep their values. */
  lemma SetWindowField(config: Entries, key: string, field: string, v: Value)
    requires Split(key, '.') == ["window", field]
    requires WindowIsDict(config) || !Has(config, "window")
    ensures WindowIsDict(Set(config, key, v))
    ensures GetPath(Dict(Set(config, key, v)), ["window", field]) == Some(v)
    ensures forall other :: other != field && GetPath(Dict(config), ["window", other]).Some? ==>
      GetPath(Dict(Set(config, key, v)), ["window", other]) == GetPath(Dict(config), ["window", other])
  {
    var path := ["window", field];
    WindowFieldSettable(config, field);
    SetPathFails(config, path, v);
    var r := SetPath(config, path, v).value;
    assert Set(config, key, v) == r;
    GetAfterSetPath(config, path, v);
    GetPathTwo(r, "window", field);
    forall other | other != field && GetPath(Dict(config), ["window", other]).Some?
      ensures GetPath(Dict(r), ["window", other]) == GetPath(Dict(config), ["window", other])
    {
      var p := ["window", other];
      assert p[1] != path[1];
      assert path[..|p|] == path && p[..|path|] == p;
      assert !IsPrefix(p, path) && !IsPrefix(path, p);
      SetPathKeepsOthers(config, path, v, p);
    }
  }

  /**
   * Each field given to `set_window_config` reads back as given, the fields
   * given later do not disturb it, and with no field given nothing changes.
   */
  lemma SetWindowConfigEffect(config: Entries, width: Option<Value>, height: Option<Value>, maximized: Option<Value>)
    requires WindowIsDict(config) || !Has(config, "window")
    ensures var r := SetWindowConfig(config, width, height, maximized);
      (width.Some? ==> Get(r, "window.width", Null) == width.value)
      && (height.Some? ==> Get(r, "window.height", Null) == height.value)
      && (maximized.Some? ==> Get(r, "window.maximized", Null) == maximized.value)
      && (width.None? && height.None? && maximized.None? ==> r == config)
  {
    WindowPaths();
    var c1 := if width.Some? then Set(config, "window.width", width.value) else config;
    if width.Some? { SetWindowField(config, "window.width", "width", width.value); }
    var c2 := if height.Some? then Set(c1, "window.height", height.value) else c1;
    if height.Some? { SetWindowField(c1, "window.height", "height", height.value); }
    var c3 := if maximized.Some? then Set(c2, "window.maximized", maximized.value) else c2;
    if maximized.Some? { SetWindowField(c2, "window.maximized", "maximized", maximized.value); }
    assert SetWindowConfig(config, width, height, maximized) == c3;
    assert "width" != "height" && "width" != "maximized" && "height" != "maximized";
    if width.Some? {
      assert GetPath(Dict(c1), ["window", "width"]) == Some(width.value);
      assert GetPath(Dict(c2), ["window", "width"]) == Some(width.value);
      assert GetPath(Dict(c3), ["window", "width"]) == Some(width.value);
    }
    if height.Some? {
      assert GetPath(Dict(c3), ["window", "height"]) == Some(height.value);
    }
  }
}
