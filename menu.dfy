/**
 * The conversation logic of handlers/menu.py with Telegram removed: the per-chat FSM record
 * (state, `path`, `search_results`) and what `navigate_menu`, `handle_search` and
 * `handle_search_selection` do to it and answer. A message is `None` when it carries no text.
 */
module Menu {
  import opened Wrappers
  import opened Text
  import opened Documents
  import opened Search

  const MaxAuthAttempts := 3
  const InactivityTimeout := 600

  /** `MenuState`, plus `NoState` for a chat whose state was cleared. */
  datatype MenuState = NoState | AtPath | AwaitingNumber | Searching | AwaitingSelection

  /**
   * The FSM record of one chat: its state and the `path` and `search_results` data.
   * A missing `path` reads as `[]` and missing results as `{}`, so they are stored as such.
   */
  datatype Session = Session(state: MenuState, path: seq<string>, results: map<string, seq<string>>)

  /** `state.clear()`. */
  const Cleared := Session(NoState, [], map[])

  /** The reply keyboard sent with an answer. */
  datatype Keyboard =
    | Kept                        // no markup: the chat keeps its keyboard
    | Removed                     // `ReplyKeyboardRemove()`
    | Buttons(labels: seq<string>) // one button per label, top to bottom
    | Choices(keys: set<string>)  // the sorted result keys, then back and home

  /** What an answer says, without its wording. */
  datatype Notice =
    | NotText | UseCommands | LoggedOut | WentBack | MainMenu | EnterQuery | Paywall
    | Description(body: string) | Section(title: string) | NodeShown
    | NumberOnly | Suspended | Welcome(name: string) | TooManyAttempts | RequestSent(callback: string)
    | Revoked | WelcomeBack | EnterNumber | HelpHint
    | AlreadySearching | NothingFound | Found | MovedTo(key: string) | BackToMenu | NotInList
    | AccessDenied | AuthReset

  datatype Reply = Reply(notice: Notice, keyboard: Keyboard)

  /** The answers a handler sends, or the exception that ends it. */
  datatype Outcome = Replies(replies: seq<Reply>) | Raised

  const CommandWords: seq<string> := ["/search", "search", "/reset", "reset"]
  const ExitWords: seq<string> := ["🚪 выйти", "выйти"]
  const BackWords: seq<string> := ["⬅ назад", "назад"]
  const HomeWords: seq<string> := ["🏠 главное меню", "главное меню"]
  const ResetsKey := "ресеты"
  const DescriptionKey := "_описание"

  /** `generate_back_menu()`. */
  const BackMenu: seq<string> := [BackButton, HomeButton]

  /** `generate_menu(DATA_JSON)`. */
  function RootMenu(root: Node): seq<string> {
    MenuLabels(IterKeys(root), true)
  }

  /** `list.pop()`: the path without its last element. */
  function DropLast(p: seq<string>): (r: seq<string>)
    requires p != []
    ensures |r| == |p| - 1 && p == r + [p[|p| - 1]]
  {
    p[..|p| - 1]
  }

  /** `next((key for key in node if key.lower() == text), None)`: the first key matching. */
  function FirstMatch(keys: seq<string>, text: string): (r: Option<string>)
    ensures r.Some? ==> r.value in keys && Lower(r.value) == text
    ensures r.None? <==> forall k :: k in keys ==> Lower(k) != text
    ensures r.Some? ==> exists i :: 0 <= i < |keys| && keys[i] == r.value && forall j :: 0 <= j < i ==> Lower(keys[j]) != text
  {
    if keys == [] then None
    else if Lower(keys[0]) == text then Some(keys[0])
    else
      assert forall k :: k in keys ==> k == keys[0] || k in keys[1..];
      var r := FirstMatch(keys[1..], text);
      if r.Some? then FirstMatchShift(keys, text, r.value); r else r
  }

  /** A first match in the keys after a non-matching head is the first match of all the keys. */
  lemma FirstMatchShift(keys: seq<string>, text: string, v: string)
    requires keys != [] && Lower(keys[0]) != text
    requires exists i :: 0 <= i < |keys[1..]| && keys[1..][i] == v && forall j :: 0 <= j < i ==> Lower(keys[1..][j]) != text
    ensures exists i :: 0 <= i < |keys| && keys[i] == v && forall j :: 0 <= j < i ==> Lower(keys[j]) != text
  {
    var i :| 0 <= i < |keys[1..]| && keys[1..][i] == v && forall j :: 0 <= j < i ==> Lower(keys[1..][j]) != text;
    assert keys[i + 1] == v;
    forall j | 0 < j < i + 1 ensures Lower(keys[j]) != text {
      assert keys[j] == keys[1..][j - 1];
    }
  }

  /** What the "ресеты" subscription check does. */
  datatype Gate = Open | Paywalled | ImportFails

  /**
   * The check as written: `from db import is_subscribed` raises `ImportError` whoever asks,
   * because db.py defines no such function.
   */
  function ResetsGateAsWritten(admin: bool, subscribed: bool): (g: Gate)
    ensures g != ResetsGate(admin, subscribed)
  {
    ImportFails
  }

  /** The check as intended: open for admins and subscribers, the paywall for everyone else. */
  function ResetsGate(admin: bool, subscribed: bool): (g: Gate)
    ensures g != ImportFails
    ensures g == Open <==> admin || subscribed
  {
    if !admin && !subscribed then Paywalled else Open
  }

  /** Python truth of a JSON value: a non-empty string or a non-empty object. */
  predicate Truthy(n: Node) {
    match n
    case Leaf(t) => t != ""
    case Dict(es) => es != []
  }

  /** `{k: v for k, v in node.items() if not k.startswith("_")}`. */
  function VisibleEntries(es: seq<(string, Node)>): (r: seq<(string, Node)>)
    ensures forall e :: e in r <==> e in es && !StartsWith(e.0, "_")
  {
    if es == [] then []
    else
      assert forall e :: e in es ==> e == es[0] || e in es[1..];
      (if StartsWith(es[0].0, "_") then [] else [es[0]]) + VisibleEntries(es[1..])
  }

  /**
   * The answers after entering `key` whose value is `next`: a leaf shows its text; an object
   * shows its description and its submenu, or its text when it has neither. Escaping a
   * description that is itself an object raises.
   */
  function OpenReplies(key: string, next: Node): (r: Outcome)
    ensures r == Raised <==>
      (next.Dict? && Lookup(next.entries, DescriptionKey).Some?
       && Lookup(next.entries, DescriptionKey).value.Dict? && Truthy(Lookup(next.entries, DescriptionKey).value))
    ensures r.Replies? ==> r.replies != []
  {
    match next
    case Leaf(t) => Replies([Reply(Description(t), Buttons(BackMenu))])
    case Dict(es) =>
      var d := Lookup(es, DescriptionKey);
      var sub := VisibleEntries(es);
      var shown := d.Some? && Truthy(d.value);
      if shown && d.value.Dict? then Raised
      else if shown && sub == [] then Replies([Reply(Description(d.value.text), Buttons(BackMenu))])
      else
        Replies(
          (if shown then [Reply(Description(d.value.text), Kept)] else [])
          + (if sub != [] then [Reply(Section(key), Buttons(MenuLabels(KeysOf(sub), false)))]
             else [Reply(NodeShown, Buttons(BackMenu))]))
  }

  /** "назад": pop the path when it is not empty, then show the menu of the node reached. */
  function Back(root: Node, s: Session): (r: (Session, Outcome))
    ensures r.0 == s.(path := r.0.path)
    ensures s.path == [] ==> r.0.path == []
    ensures s.path != [] ==> s.path == r.0.path + [s.path[|s.path| - 1]]
  {
    var p := if s.path == [] then [] else DropLast(s.path);
    match GenerateMenu(NodeAt(root, p), p == [])
    case None => (s.(path := p), Raised)
    case Some(labels) => (s.(path := p), Replies([Reply(WentBack, Buttons(labels))]))
  }

  /**
   * Text that is no command: enter the first child whose lower-cased key equals the text.
   * Iterating a missing node raises; a string node yields its characters, and indexing it
   * with one raises after the path was extended.
   */
  function Forward(root: Node, s: Session, t: string, gate: Gate): (r: (Session, Outcome))
    ensures r.0 != s ==>
      (&& NodeAt(root, s.path).Some?
       && r.0 == s.(path := r.0.path) && |r.0.path| == |s.path| + 1 && r.0.path[..|s.path|] == s.path
       && r.0.path[|s.path|] in IterKeys(NodeAt(root, s.path).value) && Lower(r.0.path[|s.path|]) == t)
    ensures r.0 != s && gate != Open ==> t != ResetsKey
  {
    match NodeAt(root, s.path)
    case None => (s, Raised)
    case Some(node) =>
      var m := FirstMatch(IterKeys(node), t);
      if m.None? || m.value == "" then (s, Replies([]))
      else if Lower(m.value) == ResetsKey && gate != Open then
        (s, if gate == Paywalled then Replies([Reply(Paywall, Kept)]) else Raised)
      else
        var s' := s.(path := s.path + [m.value]);
        match Child(node, m.value)
        case None => (s', Raised)
        case Some(next) => (s', OpenReplies(m.value, next))
  }

  /** `navigate_menu`: the new record and the answers for one message in state `path`. */
  function Navigate(root: Node, s: Session, text: Option<string>, gate: Gate): (r: (Session, Outcome))
    ensures r.0 == Cleared || r.0.results == s.results
    ensures r.0 == Cleared || r.0.state == s.state || r.0.state == Searching
  {
    if text.None? || text.value == "" then (s, Replies([Reply(NotText, Kept)]))
    else
      var t := Strip(text.value);
      var lowered := Lower(t);
      if t in CommandWords then (s, Replies([Reply(UseCommands, Kept)]))
      else if lowered in ExitWords then (Cleared, Replies([Reply(LoggedOut, Removed)]))
      else if lowered in BackWords then Back(root, s)
      else if lowered in HomeWords then (s.(path := []), Replies([Reply(MainMenu, Buttons(RootMenu(root)))]))
      else if t == SearchButton then (s.(state := Searching), Replies([Reply(EnterQuery, Removed)]))
      else Forward(root, s, t, gate)
  }

  /** `handle_search_selection`: the new record and the answers for one message. */
  function Select(root: Node, s: Session, text: Option<string>): (r: (Session, Outcome))
    ensures r.0.results == s.results
    ensures r.0 == s || r.0.state == AtPath
    ensures r.1 == Raised ==> text.Some? && text.value in s.results
  {
    if text.Some? && text.value in s.results then
      var p := s.results[text.value];
      match GenerateMenu(NodeAt(root, p), false)
      case None => (s.(state := AtPath, path := p), Raised)
      case Some(labels) => (s.(state := AtPath, path := p), Replies([Reply(MovedTo(text.value), Buttons(labels))]))
    else if text == Some(BackButton) then
      (s.(state := AtPath), Replies([Reply(BackToMenu, Buttons(RootMenu(root)))]))
    else if text == Some(HomeButton) then
      (s.(state := AtPath, path := []), Replies([Reply(MainMenu, Buttons(RootMenu(root)))]))
    else (s, Replies([Reply(NotInList, Kept)]))
  }

  /** `handle_search`: the new record and the answers for one query over `flat`. */
  function SearchStep(flat: seq<FlatEntry>, s: Session, text: Option<string>): (r: (Session, Outcome))
    requires PathsNonEmpty(flat)
    ensures r.0.path == s.path
    ensures r.0 != s ==> r.0.state == AwaitingSelection && r.0.results != map[]
    ensures r.1 == Raised <==> text.None?
  {
    if text.None? then (s, Raised)
    else if Lower(Strip(text.value)) in CommandWords then (s, Replies([Reply(AlreadySearching, Kept)]))
    else
      var matches := SearchResults(flat, Expansion(Strip(text.value)));
      if matches == map[] then (s, Replies([Reply(NothingFound, Kept)]))
      else (s.(state := AwaitingSelection, results := matches), Replies([Reply(Found, Choices(matches.Keys))]))
  }

  /**
   * The paths a chat can hold: one that resolves, or a string node's path followed by one
   * of its characters (what entering a key of a string leaves behind before it raises).
   */
  ghost predicate PathOk(root: Node, p: seq<string>) {
    NodeAt(root, p).Some? || (p != [] && NodeAt(root, DropLast(p)).Some? && NodeAt(root, DropLast(p)).value.Leaf?)
  }

  /** The record a chat can hold: a reachable path and stored results that all resolve. */
  ghost predicate SessionOk(root: Node, s: Session) {
    PathOk(root, s.path) && forall k :: k in s.results ==> NodeAt(root, s.results[k]).Some?
  }

  /** Extending a resolving path by one key resolves to that key's child. */
  lemma NodeAtSnoc(root: Node, p: seq<string>, k: string)
    ensures NodeAt(root, p + [k]) == match NodeAt(root, p) case None => None case Some(n) => Child(n, k)
  {
    assert (p + [k])[..|p|] == p;
  }

  /** The key `FirstMatch` returns is a key of the object, so it has a child. */
  lemma KeyHasChild(es: seq<(string, Node)>, k: string)
    requires k in KeysOf(es)
    ensures Child(Dict(es), k).Some?
  {
    var i :| 0 <= i < |KeysOf(es)| && KeysOf(es)[i] == k;
    LookupFound(es, k);
  }

  /** Going back from a reachable path never raises: the menu it shows always exists. */
  lemma BackNeverRaises(root: Node, s: Session)
    requires PathOk(root, s.path)
    ensures Back(root, s).1.Replies?
    ensures PathOk(root, Back(root, s).0.path)
    ensures Back(root, s).0.path == if s.path == [] then [] else DropLast(s.path)
  {
    if s.path != [] {
      if NodeAt(root, s.path).Some? {
        NodeAtPrefix(root, s.path, |s.path| - 1);
      }
    }
  }

  /** `navigate_menu` keeps a chat's record reachable. */
  lemma NavigateKeepsSessionOk(root: Node, s: Session, text: Option<string>, gate: Gate)
    requires SessionOk(root, s)
    ensures SessionOk(root, Navigate(root, s, text, gate).0)
  {
    if text.Some? && text.value != "" {
      var t := Strip(text.value);
      var lowered := Lower(t);
      if t !in CommandWords && lowered !in ExitWords {
        if lowered in BackWords {
          BackNeverRaises(root, s);
        } else if lowered !in HomeWords && t != SearchButton {
          ForwardKeepsSessionOk(root, s, t, gate);
        }
      }
    }
  }

  lemma ForwardKeepsSessionOk(root: Node, s: Session, t: string, gate: Gate)
    requires SessionOk(root, s)
    ensures SessionOk(root, Forward(root, s, t, gate).0)
  {
    var r := Forward(root, s, t, gate).0;
    if NodeAt(root, s.path).Some? && r != s {
      var node := NodeAt(root, s.path).value;
      var k := FirstMatch(IterKeys(node), t).value;
      assert r.path == s.path + [k];
      NodeAtSnoc(root, s.path, k);
      assert DropLast(r.path) == s.path;
      if node.Dict? {
        KeyHasChild(node.entries, k);
      }
    }
  }

  /**
   * Text naming a key of the current object, under an open gate, enters that key: the path
   * grows by the first key whose lower-case form is the text, even when its value is a
   * leaf, the new path resolves to that value, and the answers are those of `OpenReplies`.
   */
  lemma ForwardEntersKey(root: Node, s: Session, t: string, gate: Gate, es: seq<(string, Node)>)
    requires NodeAt(root, s.path) == Some(Dict(es))
    requires FirstMatch(KeysOf(es), t).Some? && t != ""
    requires t != ResetsKey || gate == Open
    ensures var k := FirstMatch(KeysOf(es), t).value;
      && Lower(k) == t
      && Forward(root, s, t, gate).0 == s.(path := s.path + [k])
      && NodeAt(root, s.path + [k]).Some?
      && Forward(root, s, t, gate).1 == OpenReplies(k, NodeAt(root, s.path + [k]).value)
  {
    var k := FirstMatch(KeysOf(es), t).value;
    KeyHasChild(es, k);
    NodeAtSnoc(root, s.path, k);
  }

  /** Text matching no key of the current object changes nothing and gets no answer. */
  lemma UnmatchedTextChangesNothing(root: Node, s: Session, t: string, gate: Gate, es: seq<(string, Node)>)
    requires NodeAt(root, s.path) == Some(Dict(es))
    requires forall i :: 0 <= i < |es| ==> Lower(es[i].0) != t
    ensures Forward(root, s, t, gate) == (s, Replies([]))
  {
    assert forall k :: k in KeysOf(es) ==> Lower(k) != t;
  }

  /** For a user who is neither admin nor subscribed, "ресеты" shows the paywall and leaves the path alone. */
  lemma ResetsPaywallKeepsPath(root: Node, s: Session, es: seq<(string, Node)>)
    requires NodeAt(root, s.path) == Some(Dict(es))
    requires FirstMatch(KeysOf(es), ResetsKey).Some?
    ensures Forward(root, s, ResetsKey, ResetsGate(false, false)) == (s, Replies([Reply(Paywall, Kept)]))
  {
  }

  /** For an admin or a subscriber, "ресеты" opens like any other key. */
  lemma ResetsOpensForSubscribers(root: Node, s: Session, es: seq<(string, Node)>, admin: bool)
    requires NodeAt(root, s.path) == Some(Dict(es))
    requires FirstMatch(KeysOf(es), ResetsKey).Some?
    ensures Forward(root, s, ResetsKey, ResetsGate(admin, true)).0.path == s.path + [FirstMatch(KeysOf(es), ResetsKey).value]
  {
  }

  /** As written, "ресеты" raises `ImportError` for everyone, admins included, and the path never grows. */
  lemma ResetsNeverOpensAsWritten(root: Node, s: Session, es: seq<(string, Node)>, admin: bool, subscribed: bool)
    requires NodeAt(root, s.path) == Some(Dict(es))
    requires FirstMatch(KeysOf(es), ResetsKey).Some?
    ensures Forward(root, s, ResetsKey, ResetsGateAsWritten(admin, subscribed)) == (s, Raised)
  {
  }

  /**
   * The menu commands of `navigate_menu`: "выйти" clears the record, "назад" pops one
   * element (none at the root) and never raises from a reachable path, "главное меню"
   * empties the path, and the search button switches to `searching`; each keeps the rest.
   */
  lemma NavigateCommands(root: Node, s: Session, text: string, gate: Gate)
    requires text != "" && Strip(text) !in CommandWords && PathOk(root, s.path)
    ensures var (r, out) := Navigate(root, s, Some(text), gate);
      var lowered := Lower(Strip(text));
      && (lowered in ExitWords ==> r == Cleared)
      && (lowered !in ExitWords && lowered in BackWords ==>
            r == s.(path := if s.path == [] then [] else DropLast(s.path)) && out.Replies?)
      && (lowered !in ExitWords + BackWords && lowered in HomeWords ==> r == s.(path := []))
      && (lowered !in ExitWords + BackWords + HomeWords && Strip(text) == SearchButton ==>
            r == s.(state := Searching))
  {
    if Lower(Strip(text)) !in ExitWords && Lower(Strip(text)) in BackWords {
      BackNeverRaises(root, s);
    }
  }

  /** The back, home and exit buttons, pressed, are recognised as their commands. */
  lemma ButtonsAreCommands()
    ensures Lower(Strip(BackButton)) in BackWords
    ensures Lower(Strip(HomeButton)) in HomeWords
    ensures Lower(Strip(ExitButton)) in ExitWords
  {
    StripOfStripped(BackButton);
    StripOfStripped(HomeButton);
    StripOfStripped(ExitButton);
    assert Lower(BackButton) == BackWords[0];
    assert Lower(HomeButton) == HomeWords[0];
    assert Lower(ExitButton) == ExitWords[0];
  }

  /**
   * A key button whose label has a capital letter does nothing when pressed: its text is
   * compared with the lower-cased keys as it is.
   */
  lemma CapitalisedLabelIgnored()
    ensures var root := Dict([("Двигатель", Leaf("doc"))]);
      var s := Session(AtPath, [], map[]);
      Navigate(root, s, Some("Двигатель"), Open) == (s, Replies([]))
  {
    var root := Dict([("Двигатель", Leaf("doc"))]);
    StripOfStripped("Двигатель");
    assert Lower("Двигатель")[0] == 'д';
    assert Lower("Двигатель") != "Двигатель";
    assert IterKeys(root) == ["Двигатель"];
    assert Lower("Двигатель") !in ExitWords + BackWords + HomeWords;
  }

  /** Picking a stored result moves to its path in state `path`; from a sound record it never raises. */
  lemma SelectResult(root: Node, s: Session, key: string)
    requires SessionOk(root, s) && key in s.results
    ensures Select(root, s, Some(key)).0 == s.(state := AtPath, path := s.results[key])
    ensures Select(root, s, Some(key)).1.Replies?
  {
  }

  /** `handle_search_selection` keeps a chat's record reachable and never raises from one. */
  lemma SelectKeepsSessionOk(root: Node, s: Session, text: Option<string>)
    requires SessionOk(root, s)
    ensures SessionOk(root, Select(root, s, text).0)
    ensures Select(root, s, text).1.Replies?
  {
  }

  /**
   * A search over the flattened tree stores only results that resolve, each a one- or
   * two-element prefix ending with its own label, and leaves the path alone.
   */
  lemma SearchKeepsSessionOk(root: Node, s: Session, text: Option<string>)
    requires WellFormed(root) && root.Dict? && SessionOk(root, s)
    ensures PathsNonEmpty(Flatten(root, []))
    ensures var r := SearchStep(Flatten(root, []), s, text).0;
      && SessionOk(root, r) && r.path == s.path
      && forall k :: k in r.results && k !in s.results ==> 1 <= |r.results[k]| <= 2 && r.results[k][|r.results[k]| - 1] == k
  {
    FlatDataPathsNonEmpty(root);
    var flat := Flatten(root, []);
    if text.Some? {
      var terms := Expansion(Strip(text.value));
      var m := SearchResults(flat, terms);
      if Lower(Strip(text.value)) !in CommandWords && m != map[] {
        AllResultsResolve(root, terms);
        StoredResultsOk(root, s, m);
        assert SearchStep(flat, s, text).0 == s.(state := AwaitingSelection, results := m);
      }
    }
  }

  /** Storing results that resolve keeps the record valid and its path unchanged. */
  lemma StoredResultsOk(root: Node, s: Session, m: map<string, seq<string>>)
    requires SessionOk(root, s)
    requires ResultsOk(root, m)
    ensures var r := s.(state := AwaitingSelection, results := m);
      && SessionOk(root, r) && r.path == s.path
      && forall k :: k in r.results && k !in s.results ==> 1 <= |r.results[k]| <= 2 && r.results[k][|r.results[k]| - 1] == k
  {
  }

  /** Search results that resolve, each at most two keys deep and ending with its label. */
  ghost predicate ResultsOk(root: Node, m: map<string, seq<string>>) {
    forall k :: k in m ==> NodeAt(root, m[k]).Some? && 1 <= |m[k]| <= 2 && m[k][|m[k]| - 1] == k
  }

  /** Every stored search result resolves and is at most two keys deep, ending with its label. */
  lemma AllResultsResolve(root: Node, terms: set<string>)
    requires WellFormed(root) && root.Dict? && PathsNonEmpty(Flatten(root, []))
    ensures ResultsOk(root, SearchResults(Flatten(root, []), terms))
  {
    var m := SearchResults(Flatten(root, []), terms);
    forall k | k in m ensures NodeAt(root, m[k]).Some? && 1 <= |m[k]| <= 2 && m[k][|m[k]| - 1] == k {
      SearchResultsResolve(root, terms, k);
    }
  }
}
