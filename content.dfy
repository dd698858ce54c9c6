/**
  * The content script: building an action record from a DOM event, the
  * selector path of the event target, the capped per-host actions list, and
  * the guard that installs the capturing listeners once.
  */
module Content {
  import opened Text
  import opened ActionModel
  import Background

  const MAX_ACTIONS := 100
  const INNER_TEXT_LIMIT := 50
  const ELEMENT_NODE := 1

  /** `getStorageKey()`: the key the actions of a host are written under. */
  function ActionsKey(host: string): (r: string)
    ensures StartsWith(r, "userActions_") && r[12..] == host
  {
    "userActions_" + host
  }

  /**
    * The key the content script writes and the key the background worker
    * reads for the same purpose never coincide, whatever the two hosts.
    */
  lemma ActionKeysNeverMeet(h1: string, h2: string)
    ensures ActionsKey(h1) != Background.StorageKey(h2, "_actions")
  {
    assert ActionsKey(h1)[0] == 'u';
    assert Background.StorageKey(h2, "_actions")[0] == 's';
  }

  // ---------------------------------------------------------------------------
  // The action record
  // ---------------------------------------------------------------------------

  /** The properties of `event.target` that are read; None stands for an absent (undefined or null) property. */
  datatype DomTarget = DomTarget(
    tagName: Option<string>,
    id: Option<string>,
    className: Option<string>,
    innerText: Option<string>,
    value: Option<string>,
    href: Option<string>,
    nodeName: Option<string>)

  /** A DOM event as `recordAction` reads it; None stands for an absent coordinate. */
  datatype DomEvent = DomEvent(kind: string, target: DomTarget, clientX: Option<int>, clientY: Option<int>)

  /** `v || ''`: a present value is kept, an absent one becomes `''`. */
  function OrEmpty(v: Option<string>): (r: string)
    ensures v.Some? ==> r == v.value
    ensures v.None? ==> r == ""
  {
    if v.Some? then v.value else ""
  }

  /** `v || 0`: a present coordinate is kept, an absent one becomes 0. */
  function OrZero(v: Option<int>): (r: int)
    ensures v.Some? ==> r == v.value
    ensures v.None? ==> r == 0
  {
    if v.Some? then v.value else 0
  }

  /** The record `recordAction` builds, given the target's path, the local time and the page URL. */
  function MakeAction(event: DomEvent, path: string, now: string, url: string): (a: Action)
    ensures a.kind == event.kind && a.timestamp == now && a.url == url && a.target.path == path
    ensures var text := OrEmpty(event.target.innerText);
      |a.target.innerText| == Min(INNER_TEXT_LIMIT, |text|) && a.target.innerText == text[..|a.target.innerText|]
    ensures |OrEmpty(event.target.innerText)| <= INNER_TEXT_LIMIT ==> a.target.innerText == OrEmpty(event.target.innerText)
    ensures a.target.tagName == OrEmpty(event.target.tagName) && a.target.id == OrEmpty(event.target.id)
    ensures a.target.className == OrEmpty(event.target.className) && a.target.value == OrEmpty(event.target.value)
    ensures a.target.href == OrEmpty(event.target.href) && a.target.nodeName == OrEmpty(event.target.nodeName)
    ensures a.x == OrZero(event.clientX) && a.y == OrZero(event.clientY)
    ensures a.value.Some? ==> event.kind == "input" || event.kind == "change"
    ensures event.kind == "input" || event.kind == "change" ==> a.value == event.target.value
    ensures a.isConfirmed.None?
  {
    var t := event.target;
    var target := Target(
      OrEmpty(t.tagName), OrEmpty(t.id), OrEmpty(t.className),
      Prefix(OrEmpty(t.innerText), INNER_TEXT_LIMIT),
      OrEmpty(t.value), OrEmpty(t.href), OrEmpty(t.nodeName), path);
    var value := if event.kind == "input" || event.kind == "change" then t.value else None;
    Action(now, event.kind, target, OrZero(event.clientX), OrZero(event.clientY), url, value, None)
  }

  /**
    * Two consecutive inputs on different fields that both lack an id are both
    * recorded with the id `''`, so the merge treats them as one field: the
    * second only overwrites the value of the first.
    */
  lemma IdlessInputsMerge(ev1: DomEvent, ev2: DomEvent, path1: string, path2: string, now1: string, now2: string, url: string)
    requires ev1.kind == "input" && ev2.kind == "input"
    requires ev1.target.id.None? && ev2.target.id.None?
    ensures var a1, a2 := MakeAction(ev1, path1, now1, url), MakeAction(ev2, path2, now2, url);
      Background.Merge([a1, a2]) == [a1.(isConfirmed := Some(false), value := a2.value)]
  {
    var a1, a2 := MakeAction(ev1, path1, now1, url), MakeAction(ev2, path2, now2, url);
    assert [a1, a2][..1] == [a1] && [a1][..0] == [];
    assert Background.Merge([a1]) == [a1.(isConfirmed := Some(false))];
  }

  // ---------------------------------------------------------------------------
  // The capped append
  // ---------------------------------------------------------------------------

  /** `result[storageKey] || []` */
  function Stored(store: map<string, seq<Action>>, key: string): seq<Action> {
    if key in store then store[key] else []
  }

  /** The list after one capped append: the newest `MAX_ACTIONS` entries of `current + [action]`. */
  function CappedAppend(current: seq<Action>, action: Action): (r: seq<Action>)
    ensures |r| == Min(MAX_ACTIONS, |current| + 1)
    ensures r[|r| - 1] == action
    ensures r == (current + [action])[|current| + 1 - |r|..]
  {
    var all := current + [action];
    if |all| > MAX_ACTIONS then all[|all| - MAX_ACTIONS..] else all
  }

  /** Below the cap nothing is dropped. */
  lemma AppendBelowCap(current: seq<Action>, action: Action)
    requires |current| < MAX_ACTIONS
    ensures CappedAppend(current, action) == current + [action]
  {
  }

  /** On a full list the oldest entry gives way to the new one. */
  lemma AppendToFullList(current: seq<Action>, action: Action)
    requires |current| == MAX_ACTIONS
    ensures CappedAppend(current, action) == current[1..] + [action]
  {
  }

  /** The list after a run of appends, one per captured event. */
  function AppendAll(current: seq<Action>, actions: seq<Action>): seq<Action> {
    if actions == [] then current
    else CappedAppend(AppendAll(current, actions[..|actions| - 1]), actions[|actions| - 1])
  }

  /** The newest `MAX_ACTIONS` entries of a list (all of them when it is shorter). */
  function Newest(s: seq<Action>): (r: seq<Action>)
    ensures |r| == Min(MAX_ACTIONS, |s|)
  {
    s[|s| - Min(MAX_ACTIONS, |s|)..]
  }

  /** However many events arrive, the stored list is the newest `MAX_ACTIONS` of everything recorded. */
  lemma {:induction false} AppendAllKeepsNewest(current: seq<Action>, actions: seq<Action>)
    requires |current| <= MAX_ACTIONS
    ensures AppendAll(current, actions) == Newest(current + actions)
  {
    if actions == [] {
      assert current + actions == current;
    } else {
      var init, last := actions[..|actions| - 1], actions[|actions| - 1];
      AppendAllKeepsNewest(current, init);
      var prev := current + init;
      assert current + actions == prev + [last];
      var n := |prev| - Min(MAX_ACTIONS, |prev|);
      assert (Newest(prev) + [last]) == (prev + [last])[n..];
    }
  }

  // ---------------------------------------------------------------------------
  // The selector path
  // ---------------------------------------------------------------------------

  /** The properties of a DOM node that the path walk reads. */
  datatype DomNode = DomNode(nodeType: int, nodeName: string, id: string, className: string, classList: seq<string>)

  /** ASCII `toLowerCase` of one character. */
  function LowerChar(c: char): char {
    if 'A' <= c <= 'Z' then (c as int + 32) as char else c
  }

  function LowerCase(s: string): (r: string)
    ensures |r| == |s| && forall i :: 0 <= i < |s| ==> r[i] == LowerChar(s[i])
  {
    if s == [] then [] else [LowerChar(s[0])] + LowerCase(s[1..])
  }

  /** The selector of one element: its lower-cased name, then its id or else its classes. */
  function Selector(n: DomNode): (r: string)
    ensures StartsWith(r, LowerCase(n.nodeName))
    ensures n.id != "" ==> EndsWith(r, "#" + n.id)
  {
    var name := LowerCase(n.nodeName);
    if n.id != "" then
      assert name + "#" + n.id == name + ("#" + n.id);
      PrefixOfConcat(name, "#" + n.id);
      SuffixOfConcat(name, "#" + n.id);
      name + "#" + n.id
    else if n.className != "" then
      assert name + "." + Join(n.classList, ".") == name + ("." + Join(n.classList, "."));
      PrefixOfConcat(name, "." + Join(n.classList, "."));
      name + "." + Join(n.classList, ".")
    else
      assert name[..|name|] == name;
      name
  }

  /** A selector is the lower-cased name followed by `#id`, else by the classes, else by nothing. */
  lemma SelectorParts(n: DomNode)
    ensures var r := Selector(n);
      && StartsWith(r, LowerCase(n.nodeName))
      && (n.id != "" ==> r[|n.nodeName|..] == "#" + n.id)
      && (n.id == "" && n.className != "" ==> r[|n.nodeName|..] == "." + Join(n.classList, "."))
      && (n.id == "" && n.className == "" ==> r == LowerCase(n.nodeName))
  {
    var name := LowerCase(n.nodeName);
    if n.id != "" {
      PrefixOfConcat(name, "#" + n.id);
      assert name + "#" + n.id == name + ("#" + n.id);
    } else if n.className != "" {
      PrefixOfConcat(name, "." + Join(n.classList, "."));
      assert name + "." + Join(n.classList, ".") == name + ("." + Join(n.classList, "."));
    } else {
      assert name[..|name|] == name;
    }
  }

  /** The number of element nodes at the start of the chain. */
  function ElementRun(chain: seq<DomNode>): (r: nat)
    ensures r <= |chain|
    ensures forall k :: 0 <= k < r ==> chain[k].nodeType == ELEMENT_NODE
    ensures r < |chain| ==> chain[r].nodeType != ELEMENT_NODE
  {
    if chain == [] || chain[0].nodeType != ELEMENT_NODE then 0 else 1 + ElementRun(chain[1..])
  }

  /** The images under `f` of a list, last element first. */
  function Reversed<T, U>(f: T -> U, s: seq<T>): seq<U> {
    if s == [] then [] else [f(s[|s| - 1])] + Reversed(f, s[..|s| - 1])
  }

  /** The k-th image belongs to the k-th element counted from the end. */
  lemma {:induction false} ReversedOrder<T, U>(f: T -> U, s: seq<T>)
    ensures |Reversed(f, s)| == |s|
    ensures forall k :: 0 <= k < |s| ==> Reversed(f, s)[k] == f(s[|s| - 1 - k])
  {
    if s != [] {
      var n := |s|;
      var init := s[..n - 1];
      ReversedOrder(f, init);
      var r := Reversed(f, s);
      forall k | 0 < k < n
        ensures r[k] == f(s[n - 1 - k])
      {
        assert r[k] == Reversed(f, init)[k - 1];
        assert init[n - 2 - (k - 1)] == s[n - 1 - k];
      }
    }
  }

  /** The path string of the element at the head of the chain. */
  function ElementPath(chain: seq<DomNode>): (r: string)
    ensures ElementRun(chain) == 0 ==> r == ""
    ensures ElementRun(chain) > 0 ==>
      StartsWith(r, Selector(chain[ElementRun(chain) - 1])) && EndsWith(r, Selector(chain[0]))
  {
    var sels := Reversed(Selector, chain[..ElementRun(chain)]);
    if ElementRun(chain) > 0 then
      ReversedOrder(Selector, chain[..ElementRun(chain)]);
      JoinFirst(sels, " > ");
      JoinLast(sels, " > ");
      Join(sels, " > ")
    else
      Join(sels, " > ")
  }

  /**
    * `getElementPath(element)`. `chain[0]` is the element and `chain[k + 1]`
    * the `parentNode` of `chain[k]`; the chain ends where `parentNode` is null.
    * The walk stops at the first node that is not an element.
    */
  method GetElementPath(chain: seq<DomNode>) returns (path: string)
    ensures path == ElementPath(chain)
  {
    var selectors: seq<string> := [];
    var i := 0;
    while i < |chain| && chain[i].nodeType == ELEMENT_NODE
      invariant 0 <= i <= ElementRun(chain)
      invariant selectors == Reversed(Selector, chain[..i])
    {
      assert chain[..i + 1][..i] == chain[..i];
      selectors := [Selector(chain[i])] + selectors;
      i := i + 1;
    }
    path := Join(selectors, " > ");
  }

  /** The path lists one selector per element of the run, the event target last. */
  lemma PathSelectors(chain: seq<DomNode>)
    requires ElementRun(chain) > 0
    ensures var sels := Reversed(Selector, chain[..ElementRun(chain)]);
      |sels| == ElementRun(chain) && sels[|sels| - 1] == Selector(chain[0])
      && sels[0] == Selector(chain[ElementRun(chain) - 1])
  {
    ReversedOrder(Selector, chain[..ElementRun(chain)]);
  }

  // ---------------------------------------------------------------------------
  // recordAction
  // ---------------------------------------------------------------------------

  /**
    * `recordAction(event)`: build the record, read the host's list (absent
    * is empty), push, keep the newest `MAX_ACTIONS`, and return the key and
    * list that are written back.
    */
  method RecordAction(
    event: DomEvent,
    chain: seq<DomNode>,
    host: string,
    now: string,
    url: string,
    store: map<string, seq<Action>>
  ) returns (key: string, actions: seq<Action>)
    ensures key == ActionsKey(host)
    ensures actions == CappedAppend(Stored(store, key), MakeAction(event, ElementPath(chain), now, url))
  {
    var path := GetElementPath(chain);
    var action := MakeAction(event, path, now, url);
    key := ActionsKey(host);
    var currentActions := if key in store then store[key] else [];
    currentActions := currentActions + [action];
    if |currentActions| > MAX_ACTIONS {
      currentActions := currentActions[|currentActions| - MAX_ACTIONS..];
    }
    actions := currentActions;
  }

  // ---------------------------------------------------------------------------
  // Listener installation
  // ---------------------------------------------------------------------------

  const EVENTS: seq<string> := ["click", "input", "change", "submit"]

  /** The document's install flag and the capturing listeners registered on it, in order. */
  class Document {
    var hasEventListeners: bool
    var listeners: seq<string>

    constructor ()
      ensures !hasEventListeners && listeners == []
    {
      hasEventListeners := false;
      listeners := [];
    }

    /** `addEventListeners()`: one capturing listener per event type. */
    method AddEventListeners()
      modifies this
      ensures listeners == old(listeners) + EVENTS
      ensures hasEventListeners == old(hasEventListeners)
    {
      var i := 0;
      while i < |EVENTS|
        invariant 0 <= i <= |EVENTS|
        invariant listeners == old(listeners) + EVENTS[..i]
        invariant hasEventListeners == old(hasEventListeners)
      {
        listeners := listeners + [EVENTS[i]];
        i := i + 1;
      }
    }

    /** The `DOMContentLoaded` handler: install unless the flag is already set. */
    method OnContentLoaded()
      modifies this
      ensures hasEventListeners
      ensures listeners == if old(hasEventListeners) then old(listeners) else old(listeners) + EVENTS
    {
      if !hasEventListeners {
        AddEventListeners();
        hasEventListeners := true;
      }
    }
  }

  /** However often the handler runs on a fresh document, each event type is listened to once. */
  method LoadTwice() returns (listeners: seq<string>)
    ensures listeners == EVENTS
  {
    var d := new Document();
    d.OnContentLoaded();
    d.OnContentLoaded();
    listeners := d.listeners;
  }
}
