/**
 * The documentation tree of handlers/menu.py (the parsed `data.json`, `DATA_JSON`):
 * `flatten_json`, `get_node_from_path` and the button labels of `generate_menu`.
 * A JSON object is a `Dict` whose entries keep their insertion order; every other
 * JSON value is a `Leaf` holding its `str()` text.
 */
module Documents {
  import opened Wrappers
  import opened Text
  import opened Ordering

  datatype Node = Leaf(text: string) | Dict(entries: seq<(string, Node)>)

  /** A JSON object never repeats a key. */
  ghost predicate DistinctKeys(es: seq<(string, Node)>) {
    forall i, j :: 0 <= i < j < |es| ==> es[i].0 != es[j].0
  }

  /** Every object in the tree has distinct keys. */
  ghost predicate WellFormed(n: Node)
    decreases n
  {
    match n
    case Leaf(_) => true
    case Dict(es) => DistinctKeys(es) && forall i :: 0 <= i < |es| ==> WellFormed(es[i].1)
  }

  /** `d[key]` when `key in d`, looking the key up among the entries in order. */
  function Lookup(es: seq<(string, Node)>, key: string): Option<Node> {
    if es == [] then None
    else if es[0].0 == key then Some(es[0].1)
    else Lookup(es[1..], key)
  }

  /** `Lookup` finds a key exactly when some entry has it, and then gives the first such entry's value. */
  lemma {:induction false} LookupFound(es: seq<(string, Node)>, key: string)
    ensures Lookup(es, key).Some? <==> exists i :: 0 <= i < |es| && es[i].0 == key
    ensures Lookup(es, key).Some? ==> exists i :: 0 <= i < |es| && es[i] == (key, Lookup(es, key).value)
  {
    if es != [] && es[0].0 != key {
      LookupFound(es[1..], key);
      if exists i :: 0 <= i < |es| && es[i].0 == key {
        var i :| 0 <= i < |es| && es[i].0 == key;
        assert es[1..][i - 1].0 == key;
      }
      if Lookup(es, key).Some? {
        var i :| 0 <= i < |es[1..]| && es[1..][i] == (key, Lookup(es, key).value);
        assert es[i + 1] == (key, Lookup(es, key).value);
      }
    } else if es != [] {
      assert es[0] == (key, Lookup(es, key).value);
    }
  }

  /** With distinct keys, looking up an entry's key gives that entry's value. */
  lemma {:induction false} LookupAt(es: seq<(string, Node)>, i: int)
    requires DistinctKeys(es) && 0 <= i < |es|
    ensures Lookup(es, es[i].0) == Some(es[i].1)
  {
    if i > 0 {
      LookupAt(es[1..], i - 1);
    }
  }

  /** One step of `get_node_from_path`: a child only of a dict that has the key. */
  function Child(n: Node, key: string): Option<Node> {
    match n
    case Leaf(_) => None
    case Dict(es) => Lookup(es, key)
  }

  /** The node `get_node_from_path(path)` reaches from `root`, or `None`. */
  function NodeAt(root: Node, path: seq<string>): Option<Node> {
    if path == [] then Some(root)
    else
      match NodeAt(root, path[..|path| - 1])
      case None => None
      case Some(n) => Child(n, path[|path| - 1])
  }

  /** Following `p` and then `q` is following `p + q`. */
  lemma {:induction false} NodeAtAppend(root: Node, p: seq<string>, q: seq<string>)
    ensures NodeAt(root, p + q) ==
      match NodeAt(root, p)
      case None => None
      case Some(n) => NodeAt(n, q)
    decreases |q|
  {
    if q == [] {
      assert p + q == p;
    } else {
      var init := q[..|q| - 1];
      assert (p + q)[..|p + q| - 1] == p + init;
      assert (p + q)[|p + q| - 1] == q[|q| - 1];
      NodeAtAppend(root, p, init);
    }
  }

  /** The first key of a path picks a child, the rest is followed from there. */
  lemma NodeAtCons(root: Node, key: string, q: seq<string>)
    ensures NodeAt(root, [key] + q) ==
      match Child(root, key)
      case None => None
      case Some(c) => NodeAt(c, q)
  {
    NodeAtAppend(root, [key], q);
    assert [key][..0] == [];
  }

  /** Once a key is missing, every longer path is missing too. */
  lemma NodeAtMissingExtends(root: Node, p: seq<string>, q: seq<string>)
    requires NodeAt(root, p) == None
    ensures NodeAt(root, p + q) == None
  {
    NodeAtAppend(root, p, q);
  }

  /** A prefix of a path that reaches a node reaches a node too. */
  lemma NodeAtPrefix(root: Node, path: seq<string>, k: int)
    requires 0 <= k <= |path| && NodeAt(root, path).Some?
    ensures NodeAt(root, path[..k]).Some?
  {
    assert path == path[..k] + path[k..];
    if NodeAt(root, path[..k]) == None {
      NodeAtMissingExtends(root, path[..k], path[k..]);
    }
  }

  /** `get_node_from_path`: walks the keys in order and gives up as soon as one is missing. */
  method GetNodeFromPath(root: Node, path: seq<string>) returns (r: Option<Node>)
    ensures r == NodeAt(root, path)
    ensures path == [] ==> r == Some(root)
  {
    var current := root;
    for i := 0 to |path|
      invariant NodeAt(root, path[..i]) == Some(current)
    {
      assert path[..i + 1][..i] == path[..i];
      var next := Child(current, path[i]);
      if next.None? {
        assert NodeAt(root, path[..i + 1]) == None;
        NodeAtMissingExtends(root, path[..i + 1], path[i + 1..]);
        assert path[..i + 1] + path[i + 1..] == path;
        return None;
      }
      current := next.value;
    }
    assert path[..|path|] == path;
    return Some(current);
  }

  /** One `{"категория": ..., "путь": ..., "ссылка": ...}` record of `FLAT_DATA`. */
  datatype FlatEntry = FlatEntry(category: string, path: seq<string>, link: string)

  /** `flatten_json(n, path)`: one entry per leaf, in the order the objects list their keys. */
  function Flatten(n: Node, path: seq<string>): seq<FlatEntry>
    decreases n, 1
  {
    match n
    case Leaf(t) => [FlatEntry(Join(path, " > "), path, t)]
    case Dict(es) => FlattenAll(es, 0, path)
  }

  /** The entries of the children `es[i..]`, in order. */
  function FlattenAll(es: seq<(string, Node)>, i: nat, path: seq<string>): seq<FlatEntry>
    decreases Dict(es), 0, |es| - i
  {
    if i >= |es| then []
    else Flatten(es[i].1, path + [es[i].0]) + FlattenAll(es, i + 1, path)
  }

  /** The entries of one child are among the entries of the object that holds it. */
  lemma {:induction false} FlattenAllHas(es: seq<(string, Node)>, i: nat, path: seq<string>, j: int, e: FlatEntry)
    requires i <= j < |es| && e in Flatten(es[j].1, path + [es[j].0])
    ensures e in FlattenAll(es, i, path)
    decreases j - i
  {
    if i < j {
      FlattenAllHas(es, i + 1, path, j, e);
    }
  }

  /** Every entry of an object comes from one of its children. */
  lemma {:induction false} FlattenAllFrom(es: seq<(string, Node)>, i: nat, path: seq<string>, e: FlatEntry)
    requires e in FlattenAll(es, i, path)
    ensures exists j :: i <= j < |es| && e in Flatten(es[j].1, path + [es[j].0])
    decreases |es| - i
  {
    if e !in Flatten(es[i].1, path + [es[i].0]) {
      FlattenAllFrom(es, i + 1, path, e);
    }
  }

  /**
   * Every entry is a leaf: its path extends the starting path, following the added keys
   * reaches a leaf holding the entry's text, and its category is the path joined by " > ".
   */
  lemma {:induction false} FlattenSound(n: Node, path: seq<string>, e: FlatEntry)
    requires WellFormed(n) && e in Flatten(n, path)
    ensures |path| <= |e.path| && e.path[..|path|] == path
    ensures NodeAt(n, e.path[|path|..]) == Some(Leaf(e.link))
    ensures e.category == Join(e.path, " > ")
    ensures n.Dict? ==> |e.path| > |path|
    decreases n
  {
    match n
    case Leaf(t) =>
      assert e.path[|path|..] == [];
    case Dict(es) =>
      FlattenAllFrom(es, 0, path, e);
      var i :| 0 <= i < |es| && e in Flatten(es[i].1, path + [es[i].0]);
      var key, child := es[i].0, es[i].1;
      assert child < n;
      FlattenSound(child, path + [key], e);
      var rest := e.path[|path| + 1..];
      assert e.path[|path|..] == [key] + rest;
      NodeAtCons(n, key, rest);
      LookupAt(es, i);
      assert e.path[..|path|] == (path + [key])[..|path|];
  }

  /** Every leaf is listed: a path that reaches a leaf from `n` gives an entry. */
  lemma {:induction false} FlattenComplete(n: Node, path: seq<string>, q: seq<string>, t: string)
    requires NodeAt(n, q) == Some(Leaf(t))
    ensures FlatEntry(Join(path + q, " > "), path + q, t) in Flatten(n, path)
    decreases n
  {
    if q == [] {
      assert path + q == path;
    } else {
      NodeAtCons(n, q[0], q[1..]);
      assert [q[0]] + q[1..] == q;
      var child := Child(n, q[0]).value;
      var es := n.entries;
      LookupFound(es, q[0]);
      var i :| 0 <= i < |es| && es[i] == (q[0], child);
      FlattenComplete(child, path + [q[0]], q[1..], t);
      assert path + [q[0]] + q[1..] == path + q;
      FlattenAllHas(es, 0, path, i, FlatEntry(Join(path + q, " > "), path + q, t));
    }
  }

  /** A flattened object lists the leaves of its non-empty objects only; `{}` lists nothing. */
  lemma FlattenEmptyDict(path: seq<string>)
    ensures Flatten(Dict([]), path) == []
  {
  }

  /** `FLAT_DATA`, built from the root object, has a non-empty path in every entry. */
  lemma FlatDataPaths(root: Node, e: FlatEntry)
    requires WellFormed(root) && root.Dict? && e in Flatten(root, [])
    ensures |e.path| >= 1 && NodeAt(root, e.path) == Some(Leaf(e.link))
  {
    FlattenSound(root, [], e);
    assert e.path[0..] == e.path;
  }

  const SearchButton := "🔍 Поиск документации"
  const BackButton := "⬅ Назад"
  const HomeButton := "🏠 Главное меню"
  const ExitButton := "🚪 Выйти"

  function KeysOf(es: seq<(string, Node)>): seq<string> {
    seq(|es|, i requires 0 <= i < |es| => es[i].0)
  }

  /** What `for key in node` yields: an object's keys, or a string's characters one by one. */
  function IterKeys(n: Node): seq<string> {
    match n
    case Dict(es) => KeysOf(es)
    case Leaf(t) => seq(|t|, i requires 0 <= i < |t| => [t[i]])
  }

  /** The keys that get a button: those not starting with "_". */
  function Visible(keys: seq<string>): seq<string> {
    if keys == [] then []
    else (if StartsWith(keys[0], "_") then [] else [keys[0]]) + Visible(keys[1..])
  }

  lemma {:induction false} VisibleCount(keys: seq<string>, x: string)
    ensures multiset(Visible(keys))[x] == if StartsWith(x, "_") then 0 else multiset(keys)[x]
  {
    if keys != [] {
      VisibleCount(keys[1..], x);
      assert keys == [keys[0]] + keys[1..];
    }
  }

  lemma {:induction false} VisibleKeepsSorted(keys: seq<string>)
    requires Sorted(keys)
    ensures Sorted(Visible(keys))
  {
    if keys != [] {
      VisibleKeepsSorted(keys[1..]);
      if !StartsWith(keys[0], "_") {
        var rest := Visible(keys[1..]);
        HeadBelowRest(keys);
        forall y | y in rest ensures LessEq(keys[0], y) {
          VisibleWithin(keys[1..], y);
        }
        SortedCons(keys[0], rest);
      }
    }
  }

  lemma {:induction false} VisibleWithin(keys: seq<string>, x: string)
    requires x in Visible(keys)
    ensures x in keys
  {
    if keys != [] && x != keys[0] {
      VisibleWithin(keys[1..], x);
    }
  }

  /** The key buttons of `generate_menu`: `sorted(keys)` without those starting with "_". */
  function MenuKeys(keys: seq<string>): seq<string> {
    Visible(SortStrings(keys))
  }

  /** The key buttons are sorted and hold each visible key as often as `keys` does. */
  lemma MenuKeysSortedVisible(keys: seq<string>)
    ensures Sorted(MenuKeys(keys))
    ensures forall x :: multiset(MenuKeys(keys))[x] == if StartsWith(x, "_") then 0 else multiset(keys)[x]
  {
    var sorted := SortStrings(keys);
    SortStringsCorrect(keys);
    VisibleKeepsSorted(sorted);
    forall x ensures multiset(Visible(sorted))[x] == if StartsWith(x, "_") then 0 else multiset(keys)[x] {
      VisibleCount(sorted, x);
    }
  }

  /** The labels of `generate_menu` for the given keys, top to bottom. */
  function MenuLabels(keys: seq<string>, isRoot: bool): seq<string> {
    (if isRoot then [SearchButton] else [])
    + MenuKeys(keys)
    + (if isRoot then [] else [BackButton, HomeButton])
    + [ExitButton]
  }

  /**
   * `generate_menu` labels: the search button first, only at the root; then the key buttons;
   * then back and home, only below the root; the exit button always last.
   */
  lemma MenuLabelsLayout(keys: seq<string>, isRoot: bool)
    ensures var r := MenuLabels(keys, isRoot);
      var lo := if isRoot then 1 else 0;
      var hi := if isRoot then |r| - 1 else |r| - 3;
      && 0 <= lo <= hi < |r|
      && (isRoot ==> r[0] == SearchButton)
      && (!isRoot ==> r[hi..hi + 2] == [BackButton, HomeButton])
      && r[|r| - 1] == ExitButton
      && r[lo..hi] == MenuKeys(keys)
  {
    var r := MenuLabels(keys, isRoot);
    var body := MenuKeys(keys);
    if isRoot {
      assert r == [SearchButton] + body + [ExitButton];
      assert r[1..|r| - 1] == body;
    } else {
      assert r == body + [BackButton, HomeButton] + [ExitButton];
      assert r[0..|r| - 3] == body;
    }
  }

  /** `generate_menu(data, is_root)`; iterating `None` raises, which is `None` here. */
  function GenerateMenu(data: Option<Node>, isRoot: bool): (r: Option<seq<string>>)
    ensures r.Some? <==> data.Some?
  {
    match data
    case None => None
    case Some(n) => Some(MenuLabels(IterKeys(n), isRoot))
  }
}
