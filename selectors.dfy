/** The reaction-driven paging selectors of the bot's menus.

    A selector belongs to one menu message and one invoking user. Each round it
    works out which reactions the message should carry, re-serves them only when
    that list changed, waits for one reaction and then either finishes (timeout,
    exit, a chosen item) or moves the page and starts the next round.

    The Discord calls are not performed: what the selector asks of its menu
    (`_serve`, `switch`, `stop`, `timeout`) is appended to an event log, and the
    result of each `wait_for` is an input `Option<Reaction>`, `None` standing for
    the timeout. */
module Selectors {
  import opened Wrappers
  import Text

  /** A reaction-add event, as far as the selectors read it. */
  datatype Reaction = Reaction(emojiName: string, userId: nat, messageId: nat)

  /** A request the selector makes of its menu. */
  datatype MenuEvent =
    | Serve(emojis: seq<string>)   // clear the message's reactions, then add these
    | Switch(emojiName: string)    // `menu.switch` after a navigation reaction
    | Stop                         // `menu.stop`
    | Timeout(seconds: real)       // `menu.timeout` with the waiting time

  /** The part of the menu a selector consults: the message it watches, the
      invoking user, and the selector's `auto_exit` and `timeout` options. */
  datatype MenuContext = MenuContext(messageId: nat, authorId: nat, autoExit: bool, timeout: real)

  /** Emoji ids of the controls. The base selection holds only the exit control;
      the four navigation ids are named after the position they are given. */
  const ExitEmoji := "796315251360137276"
  const StepBackEmoji := "830402919110672416"
  const PageBackEmoji := "830402884830494721"
  const PageNextEmoji := "830402902044442634"
  const StepNextEmoji := "830402938831634492"
  const BaseSelection := [ExitEmoji]

  /** Items per page of a `NumericalSelector`. */
  const PageSize := 9

  // ---------------------------------------------------------------------------
  // Pages of a NumericalSelector

  /** The dictionary key of the `j`-th entry of a page: `f"option{j}"`. */
  function OptionKey(j: nat): string
  {
    "option" + Text.Decimal(j)
  }

  lemma OptionKeyInjective(i: nat, j: nat)
    requires OptionKey(i) == OptionKey(j)
    ensures i == j
  {
    assert Text.Decimal(i) == OptionKey(i)[6..];
    assert Text.Decimal(j) == OptionKey(j)[6..];
    Text.ParseDecimalOfDecimal(i);
    Text.ParseDecimalOfDecimal(j);
  }

  /** `option1`, ..., `option{k}`, in this order. */
  function OptionKeys(k: nat): (keys: seq<string>)
    ensures |keys| == k
  {
    seq(k, j requires 0 <= j => OptionKey(j + 1))
  }

  function OptionKeySet(k: nat): set<string>
  {
    set j | 1 <= j <= k :: OptionKey(j)
  }

  lemma OptionKeySetStep(k: nat)
    ensures OptionKeySet(k + 1) == OptionKeySet(k) + {OptionKey(k + 1)}
  {
    assert OptionKey(k + 1) in OptionKeySet(k + 1);
  }

  /** There are exactly `k` distinct keys `option1` .. `option{k}`. */
  lemma {:induction false} OptionKeySetSize(k: nat)
    ensures |OptionKeySet(k)| == k
  {
    if k > 0 {
      OptionKeySetSize(k - 1);
      OptionKeySetStep(k - 1);
      if OptionKey(k) in OptionKeySet(k - 1) {
        var j :| 1 <= j <= k - 1 && OptionKey(j) == OptionKey(k);
        OptionKeyInjective(j, k);
      }
    }
  }

  /** How many of `n` items land on page `p`. */
  function EntriesOnPage(n: nat, p: nat): (c: nat)
    ensures c <= PageSize
  {
    if n <= PageSize * p then 0
    else if n - PageSize * p >= PageSize then PageSize
    else n - PageSize * p
  }

  /** What `__init__` builds: `len // 9 + 1` pages; item `i` is stored on page
      `i // 9` under key `option{i % 9 + 1}`; page `p` holds exactly the keys
      `option1` .. `option{EntriesOnPage(n, p)}`. */
  ghost predicate PagesOf<T>(items: seq<T>, pages: seq<map<string, T>>)
  {
    && |pages| == |items| / PageSize + 1
    && (forall p :: 0 <= p < |pages| ==> pages[p].Keys == OptionKeySet(EntriesOnPage(|items|, p)))
    && (forall i :: 0 <= i < |items| ==>
          OptionKey(i % PageSize + 1) in pages[i / PageSize]
          && pages[i / PageSize][OptionKey(i % PageSize + 1)] == items[i])
  }

  lemma EntriesStep(i: nat, q: nat)
    ensures EntriesOnPage(i, i / PageSize) == i % PageSize
    ensures EntriesOnPage(i + 1, q) == if q == i / PageSize then EntriesOnPage(i, q) + 1 else EntriesOnPage(i, q)
  {
    var p := i / PageSize;
    assert PageSize * p <= i < PageSize * p + PageSize;
    if q < p {
      assert PageSize * q + PageSize <= PageSize * p;
    } else if q > p {
      assert PageSize * q >= PageSize * p + PageSize;
    }
  }

  /** The page-filling loop of `NumericalSelector.__init__`. */
  method BuildPages<T>(items: seq<T>) returns (pages: seq<map<string, T>>)
    ensures PagesOf(items, pages)
  {
    var maxPage := |items| / PageSize + 1;
    pages := seq(maxPage, _ => map[]);
    var i := 0;
    while i < |items|
      invariant 0 <= i <= |items|
      invariant |pages| == maxPage
      invariant forall p :: 0 <= p < |pages| ==> pages[p].Keys == OptionKeySet(EntriesOnPage(i, p))
      invariant forall k :: 0 <= k < i ==>
        OptionKey(k % PageSize + 1) in pages[k / PageSize]
        && pages[k / PageSize][OptionKey(k % PageSize + 1)] == items[k]
    {
      var p, slot := i / PageSize, i % PageSize + 1;
      assert p < maxPage by {
        assert PageSize * p <= i < |items|;
      }
      ghost var before := pages;
      pages := pages[p := pages[p][OptionKey(slot) := items[i]]];
      FillKeys(before, pages, i, items[i]);
      FillEntries(items, before, pages, i);
      i := i + 1;
    }
  }

  /** Storing item `i` adds its key to its page and to no other. */
  lemma FillKeys<T>(before: seq<map<string, T>>, after: seq<map<string, T>>, i: nat, x: T)
    requires i / PageSize < |before|
    requires after == before[i / PageSize := before[i / PageSize][OptionKey(i % PageSize + 1) := x]]
    requires forall p :: 0 <= p < |before| ==> before[p].Keys == OptionKeySet(EntriesOnPage(i, p))
    ensures forall p :: 0 <= p < |after| ==> after[p].Keys == OptionKeySet(EntriesOnPage(i + 1, p))
  {
    forall q | 0 <= q < |after|
      ensures after[q].Keys == OptionKeySet(EntriesOnPage(i + 1, q))
    {
      EntriesStep(i, q);
      if q == i / PageSize {
        OptionKeySetStep(i % PageSize);
      }
    }
  }

  /** Storing item `i` keeps every earlier item where it was stored. */
  lemma FillEntries<T>(items: seq<T>, before: seq<map<string, T>>, after: seq<map<string, T>>, i: nat)
    requires i < |items| && i / PageSize < |before|
    requires after == before[i / PageSize := before[i / PageSize][OptionKey(i % PageSize + 1) := items[i]]]
    requires forall k :: 0 <= k < i ==>
      OptionKey(k % PageSize + 1) in before[k / PageSize]
      && before[k / PageSize][OptionKey(k % PageSize + 1)] == items[k]
    ensures forall k :: 0 <= k < i + 1 ==>
      OptionKey(k % PageSize + 1) in after[k / PageSize]
      && after[k / PageSize][OptionKey(k % PageSize + 1)] == items[k]
  {
    forall k | 0 <= k < i + 1
      ensures OptionKey(k % PageSize + 1) in after[k / PageSize]
      ensures after[k / PageSize][OptionKey(k % PageSize + 1)] == items[k]
    {
      if k < i && k / PageSize == i / PageSize {
        if OptionKey(k % PageSize + 1) == OptionKey(i % PageSize + 1) {
          OptionKeyInjective(k % PageSize + 1, i % PageSize + 1);
        }
      }
    }
  }

  /** Each page holds as many entries as items land on it, never more than 9;
      with a multiple of 9 items the last page is empty (9 items give 2 pages). */
  lemma PageSizes<T>(items: seq<T>, pages: seq<map<string, T>>, p: nat)
    requires PagesOf(items, pages) && p < |pages|
    ensures |pages[p]| == EntriesOnPage(|items|, p) <= PageSize
    ensures |items| % PageSize == 0 ==> |pages[|pages| - 1]| == 0
  {
    OptionKeySetSize(EntriesOnPage(|items|, p));
    assert |pages[p]| == |pages[p].Keys|;
    var last := |pages| - 1;
    OptionKeySetSize(EntriesOnPage(|items|, last));
    assert |pages[last]| == |pages[last].Keys|;
  }

  // ---------------------------------------------------------------------------
  // The page setter and navigation

  /** The range the `page` setter keeps the index in: `[0, max_page - 1]`, or
      just 0 when there are no pages. */
  predicate PageInRange(page: int, maxPage: nat)
  {
    0 <= page && (page < maxPage || page == 0)
  }

  /** The `page` setter: `max(0, min(value, max_page - 1))`. */
  function Clamp(value: int, maxPage: nat): (page: int)
    ensures PageInRange(page, maxPage)
    ensures 0 <= value < maxPage ==> page == value
    ensures value < 0 ==> page == 0
    ensures value >= maxPage ==> page == if maxPage == 0 then 0 else maxPage - 1
  {
    var upper := if value < maxPage - 1 then value else maxPage - 1;
    if upper < 0 then 0 else upper
  }

  datatype Nav = StepBack | PageBack | PageNext | StepNext

  /** The emoji name of each navigation reaction. */
  function NavName(nav: Nav): string
  {
    match nav
    case StepBack => "stepback"
    case PageBack => "pageback"
    case PageNext => "pagenext"
    case StepNext => "stepnext"
  }

  /** The value each navigation reaction assigns to `page`, before the setter
      clamps it. */
  function NavTarget(nav: Nav, page: int, maxPage: nat): int
  {
    match nav
    case StepBack => 0
    case PageBack => page - 1
    case PageNext => page + 1
    case StepNext => maxPage
  }

  /** Where a navigation reaction leaves the page: clamped, never wrapped. */
  function Navigate(nav: Nav, page: int, maxPage: nat): (next: int)
    requires PageInRange(page, maxPage)
    ensures PageInRange(next, maxPage)
    ensures nav == StepBack ==> next == 0
    ensures nav == PageBack ==> next == if page > 0 then page - 1 else 0
    ensures nav == PageNext ==> next == if page + 1 < maxPage then page + 1 else page
    ensures nav == StepNext ==> next == if maxPage == 0 then 0 else maxPage - 1
  {
    Clamp(NavTarget(nav, page, maxPage), maxPage)
  }

  // ---------------------------------------------------------------------------
  // Reactions

  predicate ByAuthorOnMenu(m: MenuContext, r: Reaction)
  {
    r.userId == m.authorId && r.messageId == m.messageId
  }

  /** `_default_check`: the message, the author and membership of the emoji in
      the current selection all match. No response consults it. */
  predicate Qualifies(m: MenuContext, selection: seq<string>, r: Reaction)
  {
    r.messageId == m.messageId && r.userId == m.authorId && r.emojiName in selection
  }

  /** How the `if`/`elif` chain of the paging `response` methods reads a reaction. */
  datatype Action = ExitMenu | Move(nav: Nav) | Other

  function Classify(m: MenuContext, r: Reaction): (a: Action)
    ensures a == ExitMenu <==> r.emojiName == "exit" && ByAuthorOnMenu(m, r)
    ensures a.Move? <==>
      ByAuthorOnMenu(m, r) && r.emojiName in {"stepback", "pageback", "pagenext", "stepnext"}
    ensures a.Move? ==> r.emojiName == NavName(a.nav)
  {
    var mine := ByAuthorOnMenu(m, r);
    if r.emojiName == "exit" && mine then ExitMenu
    else if r.emojiName == "stepback" && mine then Move(StepBack)
    else if r.emojiName == "pageback" && mine then Move(PageBack)
    else if r.emojiName == "pagenext" && mine then Move(PageNext)
    else if r.emojiName == "stepnext" && mine then Move(StepNext)
    else Other
  }

  // ---------------------------------------------------------------------------
  // The reaction list of a round (`set_selection`)

  function BackControls(page: int, maxPage: nat): seq<string>
  {
    if maxPage > 1 && page != 0 then [StepBackEmoji, PageBackEmoji] else []
  }

  function ForwardControls(page: int, maxPage: nat): seq<string>
  {
    if maxPage > 1 && page != maxPage - 1 then [PageNextEmoji, StepNextEmoji] else []
  }

  /** The list `set_selection` builds: back controls, the current page's
      `option1` .. `option{k}`, forward controls, then a copy of the base. */
  function Selection(base: seq<string>, page: int, maxPage: nat, optionCount: nat): seq<string>
  {
    BackControls(page, maxPage) + OptionKeys(optionCount) + ForwardControls(page, maxPage) + base
  }

  /** Python's `list.insert(i, x)` for an index within the list. */
  function Insert(s: seq<string>, i: nat, x: string): seq<string>
    requires i <= |s|
  {
    s[..i] + [x] + s[i..]
  }

  lemma InsertBetween(front: seq<string>, rest: seq<string>, x: string)
    ensures Insert(front + rest, |front|, x) == front + [x] + rest
  {
    var s := front + rest;
    assert s[..|front|] == front && s[|front|..] == rest;
  }

  /** `set_selection`, insert by insert. */
  method BuildSelection(base: seq<string>, page: int, maxPage: nat, optionCount: nat)
    returns (s: seq<string>)
    ensures s == Selection(base, page, maxPage, optionCount)
  {
    var insertPoint;
    s, insertPoint := InsertControls(base, page, maxPage);
    ghost var back, rest := BackControls(page, maxPage), ForwardControls(page, maxPage) + base;
    for i := 0 to optionCount
      invariant s == back + OptionKeys(i) + rest
    {
      InsertBetween(back + OptionKeys(i), rest, OptionKey(i + 1));
      s := Insert(s, i + insertPoint, OptionKey(i + 1));
      assert OptionKeys(i + 1) == OptionKeys(i) + [OptionKey(i + 1)];
    }
  }

  /** The control part of `set_selection`, before the options go in. */
  method InsertControls(base: seq<string>, page: int, maxPage: nat)
    returns (s: seq<string>, insertPoint: nat)
    ensures s == BackControls(page, maxPage) + (ForwardControls(page, maxPage) + base)
    ensures insertPoint == |BackControls(page, maxPage)|
  {
    s := base;
    insertPoint := 0;
    if maxPage > 1 {
      if page != 0 {
        s := InsertBackControls(s);
        insertPoint := insertPoint + 2;
      }
      if page != maxPage - 1 {
        s := InsertForwardControls(s, insertPoint);
      }
    }
  }

  /** The two `insert(0, ...)` calls: step-back ends up first. */
  method InsertBackControls(s0: seq<string>) returns (s: seq<string>)
    ensures s == [StepBackEmoji, PageBackEmoji] + s0
  {
    InsertBetween([], s0, PageBackEmoji);
    s := Insert(s0, 0, PageBackEmoji);
    InsertBetween([], s, StepBackEmoji);
    s := Insert(s, 0, StepBackEmoji);
  }

  /** The two `insert(insert_point, ...)` calls: page-next ends up before
      step-next, both at the insertion point. */
  method InsertForwardControls(s0: seq<string>, insertPoint: nat) returns (s: seq<string>)
    requires insertPoint <= |s0|
    ensures s == s0[..insertPoint] + ([PageNextEmoji, StepNextEmoji] + s0[insertPoint..])
  {
    ghost var front, rest := s0[..insertPoint], s0[insertPoint..];
    assert s0 == front + rest;
    InsertBetween(front, rest, StepNextEmoji);
    s := Insert(s0, insertPoint, StepNextEmoji);
    InsertBetween(front, [StepNextEmoji] + rest, PageNextEmoji);
    assert s == front + ([StepNextEmoji] + rest);
    s := Insert(s, insertPoint, PageNextEmoji);
  }

  lemma OptionKeysAreNotControls(k: nat, x: string)
    requires x in OptionKeys(k)
    ensures x != ExitEmoji && x != StepBackEmoji && x != PageBackEmoji
    ensures x != PageNextEmoji && x != StepNextEmoji
  {
    var j :| 0 <= j < k && OptionKeys(k)[j] == x;
    assert x[0] == 'o';
  }

  /** With more than one page the back controls are offered exactly when the
      page is not the first and the forward controls exactly when it is not
      the last; with one page neither. The exit control always comes last. */
  lemma {:induction false} ControlsShown(page: int, maxPage: nat, optionCount: nat)
    ensures var s := Selection(BaseSelection, page, maxPage, optionCount);
      && ((StepBackEmoji in s) <==> maxPage > 1 && page != 0)
      && ((PageBackEmoji in s) <==> maxPage > 1 && page != 0)
      && ((PageNextEmoji in s) <==> maxPage > 1 && page != maxPage - 1)
      && ((StepNextEmoji in s) <==> maxPage > 1 && page != maxPage - 1)
      && s[|s| - 1] == ExitEmoji
  {
    var s := Selection(BaseSelection, page, maxPage, optionCount);
    var keys := OptionKeys(optionCount);
    forall x | x in keys
      ensures x != ExitEmoji && x != StepBackEmoji && x != PageBackEmoji
      ensures x != PageNextEmoji && x != StepNextEmoji
    {
      OptionKeysAreNotControls(optionCount, x);
    }
    assert s == BackControls(page, maxPage) + keys + ForwardControls(page, maxPage) + BaseSelection;
  }

  // ---------------------------------------------------------------------------
  // Rounds of `response`

  /** The selector's state as seen from outside: the page index, the current
      and the previous reaction lists, and what it has asked of its menu. */
  datatype Session = Session(page: int, selection: seq<string>, lastSelection: seq<string>, log: seq<MenuEvent>)

  /** How a call of `response` ends. `Pending` means the inputs ran out while
      the selector was still waiting for a reaction; `MissingKey` is the
      `KeyError` of `pages[page][r]` for a name the page does not hold. */
  datatype Outcome<T> = Pending | TimedOut | Exited | Selected(item: T) | MissingKey(key: string)

  predicate IsTerminal<T>(o: Outcome<T>)
  {
    !o.Pending?
  }

  /** The outcome, how many inputs were consumed, and the final state. */
  datatype Run<T> = Run(outcome: Outcome<T>, consumed: nat, session: Session)
  {
    function Shifted(k: nat): Run<T>
    {
      Run(outcome, consumed + k, session)
    }
  }

  /** The head of each round: `set_selection` moves the old list into
      `last_selection`, and `_serve` runs only when the new list differs. */
  function Present(s: Session, desired: seq<string>): Session
  {
    var t := s.(selection := desired, lastSelection := s.selection);
    if t.selection != t.lastSelection then t.(log := t.log + [Serve(desired)]) else t
  }

  function ExitEvents(m: MenuContext): seq<MenuEvent>
  {
    if m.autoExit then [Stop] else []
  }

  /** How a round goes once `wait_for` has returned: the session is over with
      an outcome, or it goes on to the next round from a new state. */
  datatype Step<T> = Done(outcome: Outcome<T>, session: Session) | Next(session: Session)

  /** The second half of a `NumericalSelector.response` round: a timeout, an
      exit, a navigation (which moves the page and switches), or anything else,
      which looks the reaction's name up on the current page. */
  function NumericalStep<T>(m: MenuContext, pages: seq<map<string, T>>, s: Session, input: Option<Reaction>): (step: Step<T>)
    requires 0 <= s.page < |pages|
    ensures 0 <= step.session.page < |pages|
    ensures step.Done? ==> !step.outcome.Pending?
  {
    match input
    case None => Done(TimedOut, s.(log := s.log + [Timeout(m.timeout)]))
    case Some(r) =>
      match Classify(m, r)
      case ExitMenu => Done(Exited, s.(log := s.log + ExitEvents(m)))
      case Move(nav) => Next(s.(page := Navigate(nav, s.page, |pages|), log := s.log + [Switch(r.emojiName)]))
      case Other =>
        if r.emojiName in pages[s.page] then Done(Selected(pages[s.page][r.emojiName]), s)
        else Done(MissingKey(r.emojiName), s)
  }

  /** `NumericalSelector.response` over a sequence of `wait_for` results. */
  function NumericalRun<T>(m: MenuContext, pages: seq<map<string, T>>, s: Session, inputs: seq<Option<Reaction>>): (res: Run<T>)
    requires 0 <= s.page < |pages|
    ensures 0 <= res.session.page < |pages|
    ensures res.consumed <= |inputs|
    ensures res.outcome.Pending? ==> res.consumed == |inputs|
    decreases |inputs|
  {
    var s1 := Present(s, Selection(BaseSelection, s.page, |pages|, |pages[s.page]|));
    if inputs == [] then Run(Pending, 0, s1)
    else match NumericalStep(m, pages, s1, inputs[0])
      case Done(outcome, t) => Run(outcome, 1, t)
      case Next(t) => NumericalRun(m, pages, t, inputs[1..]).Shifted(1)
  }

  /** The second half of a `PageControls.response` round: like the numerical
      one, but any reaction that is not an exit by the author switches and
      starts a new round, so a round never returns an item. */
  function ControlsStep<T>(m: MenuContext, maxPage: nat, s: Session, input: Option<Reaction>): (step: Step<T>)
    requires PageInRange(s.page, maxPage)
    ensures PageInRange(step.session.page, maxPage)
    ensures step.Done? ==> step.outcome.TimedOut? || step.outcome.Exited?
  {
    match input
    case None => Done(TimedOut, s.(log := s.log + [Timeout(m.timeout)]))
    case Some(r) =>
      match Classify(m, r)
      case ExitMenu => Done(Exited, s.(log := s.log + ExitEvents(m)))
      case Move(nav) => Next(s.(page := Navigate(nav, s.page, maxPage), log := s.log + [Switch(r.emojiName)]))
      case Other => Next(s.(log := s.log + [Switch(r.emojiName)]))
  }

  /** `PageControls.response` over a sequence of `wait_for` results. */
  function ControlsRun<T>(m: MenuContext, maxPage: nat, s: Session, inputs: seq<Option<Reaction>>): (res: Run<T>)
    requires PageInRange(s.page, maxPage)
    ensures PageInRange(res.session.page, maxPage)
    ensures res.outcome.Pending? || res.outcome.TimedOut? || res.outcome.Exited?
    ensures res.consumed <= |inputs|
    ensures res.outcome.Pending? ==> res.consumed == |inputs|
    decreases |inputs|
  {
    var s1 := Present(s, Selection(BaseSelection, s.page, maxPage, 0));
    if inputs == [] then Run(Pending, 0, s1)
    else match ControlsStep<T>(m, maxPage, s1, inputs[0])
      case Done(outcome, t) => Run(outcome, 1, t)
      case Next(t) => ControlsRun(m, maxPage, t, inputs[1..]).Shifted(1)
  }

  /** Once a numerical session has ended, later reactions change nothing. */
  lemma NumericalEndIsFinal<T>(m: MenuContext, pages: seq<map<string, T>>, s: Session,
                               inputs: seq<Option<Reaction>>, later: seq<Option<Reaction>>)
    requires 0 <= s.page < |pages|
    requires IsTerminal(NumericalRun(m, pages, s, inputs).outcome)
    ensures var res := NumericalRun(m, pages, s, inputs);
      NumericalRun(m, pages, s, inputs[..res.consumed] + later) == res
  {
    var res := NumericalRun(m, pages, s, inputs);
    NumericalAgree(m, pages, s, inputs, inputs[..res.consumed] + later);
  }

  /** Two input sequences that agree up to where a numerical session ends
      give the same run. */
  lemma {:induction false} NumericalAgree<T>(m: MenuContext, pages: seq<map<string, T>>, s: Session,
                                              a: seq<Option<Reaction>>, b: seq<Option<Reaction>>)
    requires 0 <= s.page < |pages|
    requires IsTerminal(NumericalRun(m, pages, s, a).outcome)
    requires NumericalRun(m, pages, s, a).consumed <= |b|
    requires forall i :: 0 <= i < NumericalRun(m, pages, s, a).consumed ==> a[i] == b[i]
    ensures NumericalRun(m, pages, s, b) == NumericalRun(m, pages, s, a)
    decreases |a|
  {
    assert a[0] == b[0];
    var s1 := Present(s, Selection(BaseSelection, s.page, |pages|, |pages[s.page]|));
    match NumericalStep(m, pages, s1, a[0])
    case Done(_, _) =>
    case Next(t) =>
      var rest := NumericalRun(m, pages, t, a[1..]);
      forall i | 0 <= i < rest.consumed
        ensures a[1..][i] == b[1..][i]
      {
        assert a[i + 1] == b[i + 1];
      }
      NumericalAgree(m, pages, t, a[1..], b[1..]);
  }

  /** Once a paging session has ended, later reactions change nothing. */
  lemma ControlsEndIsFinal<T>(m: MenuContext, maxPage: nat, s: Session,
                              inputs: seq<Option<Reaction>>, later: seq<Option<Reaction>>)
    requires PageInRange(s.page, maxPage)
    requires IsTerminal(ControlsRun<T>(m, maxPage, s, inputs).outcome)
    ensures var res := ControlsRun<T>(m, maxPage, s, inputs);
      ControlsRun<T>(m, maxPage, s, inputs[..res.consumed] + later) == res
  {
    var res := ControlsRun<T>(m, maxPage, s, inputs);
    ControlsAgree<T>(m, maxPage, s, inputs, inputs[..res.consumed] + later);
  }

  /** Two input sequences that agree up to where a paging session ends give
      the same run. */
  lemma {:induction false} ControlsAgree<T>(m: MenuContext, maxPage: nat, s: Session,
                                             a: seq<Option<Reaction>>, b: seq<Option<Reaction>>)
    requires PageInRange(s.page, maxPage)
    requires IsTerminal(ControlsRun<T>(m, maxPage, s, a).outcome)
    requires ControlsRun<T>(m, maxPage, s, a).consumed <= |b|
    requires forall i :: 0 <= i < ControlsRun<T>(m, maxPage, s, a).consumed ==> a[i] == b[i]
    ensures ControlsRun<T>(m, maxPage, s, b) == ControlsRun<T>(m, maxPage, s, a)
    decreases |a|
  {
    assert a[0] == b[0];
    var s1 := Present(s, Selection(BaseSelection, s.page, maxPage, 0));
    match ControlsStep<T>(m, maxPage, s1, a[0])
    case Done(_, _) =>
    case Next(t) =>
      var rest := ControlsRun<T>(m, maxPage, t, a[1..]);
      forall i | 0 <= i < rest.consumed
        ensures a[1..][i] == b[1..][i]
      {
        assert a[i + 1] == b[i + 1];
      }
      ControlsAgree<T>(m, maxPage, t, a[1..], b[1..]);
  }

  /** Reactions by other users or on other messages never move a paging
      session's page and never end it. */
  lemma {:induction false} ControlsIgnoreOthers<T>(m: MenuContext, maxPage: nat, s: Session, inputs: seq<Option<Reaction>>)
    requires PageInRange(s.page, maxPage)
    requires forall i :: 0 <= i < |inputs| ==> inputs[i].Some? && !ByAuthorOnMenu(m, inputs[i].value)
    ensures var res := ControlsRun<T>(m, maxPage, s, inputs);
      res.outcome == Pending && res.consumed == |inputs| && res.session.page == s.page
    decreases |inputs|
  {
    if inputs != [] {
      var s1 := Present(s, Selection(BaseSelection, s.page, maxPage, 0));
      var r := inputs[0].value;
      ControlsIgnoreOthers<T>(m, maxPage, s1.(log := s1.log + [Switch(r.emojiName)]), inputs[1..]);
    }
  }

  /** A reaction by anyone else, or on another message, never moves a
      numerical session's page: it ends the round with the entry of that name
      on the current page, or with the `KeyError`. */
  lemma ForeignReactionKeepsPage<T>(m: MenuContext, pages: seq<map<string, T>>, s: Session,
                                    r: Reaction, later: seq<Option<Reaction>>)
    requires 0 <= s.page < |pages| && !ByAuthorOnMenu(m, r)
    ensures var res := NumericalRun(m, pages, s, [Some(r)] + later);
      && res.session.page == s.page && res.consumed == 1
      && res.outcome == (if r.emojiName in pages[s.page] then Selected(pages[s.page][r.emojiName])
                         else MissingKey(r.emojiName))
  {
    assert ([Some(r)] + later)[0] == Some(r);
  }

  /** The item branch checks neither the author nor the message, and
      `_default_check` is never consulted: another user's `option1` on a page
      with entries selects that page's first item although the check fails. */
  lemma CheckNotConsulted<T>(m: MenuContext, pages: seq<map<string, T>>, s: Session, r: Reaction)
    requires 0 <= s.page < |pages| && OptionKey(1) in pages[s.page]
    requires r.emojiName == OptionKey(1) && r.userId != m.authorId
    ensures var res := NumericalRun(m, pages, s, [Some(r)]);
      && res.outcome == Selected(pages[s.page][OptionKey(1)])
      && !Qualifies(m, res.session.selection, r)
  {
    assert r.emojiName != "exit";
  }

  /** An exit by the author on the menu's message ends the session without an
      item, and asks the menu to stop only when `auto_exit` is set. */
  lemma ExitByAuthor<T>(m: MenuContext, pages: seq<map<string, T>>, s: Session, r: Reaction, later: seq<Option<Reaction>>)
    requires 0 <= s.page < |pages| && r.emojiName == "exit" && ByAuthorOnMenu(m, r)
    ensures var res := NumericalRun(m, pages, s, [Some(r)] + later);
      && res.outcome == Exited && res.consumed == 1 && res.session.page == s.page
      && (Stop in res.session.log <==> Stop in s.log || m.autoExit)
  {
    assert ([Some(r)] + later)[0] == Some(r);
    var d := Selection(BaseSelection, s.page, |pages|, |pages[s.page]|);
    var s1 := Present(s, d);
    assert s1.log == s.log || s1.log == s.log + [Serve(d)];
  }

  /** A navigation reaction by the author moves the page as the setter allows
      and starts a new round; the new round re-serves reactions only if the
      reaction list changed. */
  lemma NavigationByAuthor<T>(m: MenuContext, pages: seq<map<string, T>>, s: Session, r: Reaction)
    requires 0 <= s.page < |pages| && ByAuthorOnMenu(m, r)
    requires r.emojiName in {"stepback", "pageback", "pagenext", "stepnext"}
    ensures var res := NumericalRun(m, pages, s, [Some(r)]);
      var p := res.session.page;
      && res.outcome == Pending && res.consumed == 1
      && (r.emojiName == "stepback" ==> p == 0)
      && (r.emojiName == "pageback" ==> p == if s.page > 0 then s.page - 1 else 0)
      && (r.emojiName == "pagenext" ==> p == if s.page + 1 < |pages| then s.page + 1 else s.page)
      && (r.emojiName == "stepnext" ==> p == |pages| - 1)
      && Switch(r.emojiName) in res.session.log
  {
    assert [Some(r)][1..] == [];
    var s1 := Present(s, Selection(BaseSelection, s.page, |pages|, |pages[s.page]|));
    var nav := match r.emojiName
      case "stepback" => StepBack
      case "pageback" => PageBack
      case "pagenext" => PageNext
      case _ => StepNext;
    assert Classify(m, r) == Move(nav);
    var t := s1.(page := Navigate(nav, s.page, |pages|), log := s1.log + [Switch(r.emojiName)]);
    assert Switch(r.emojiName) in t.log;
    var d := Selection(BaseSelection, t.page, |pages|, |pages[t.page]|);
    assert Present(t, d).log == t.log || Present(t, d).log == t.log + [Serve(d)];
  }

  /** An exit by the author on the menu's message ends a paging session
      without an item, and asks the menu to stop only when `auto_exit` is set. */
  lemma ControlsExitByAuthor<T>(m: MenuContext, maxPage: nat, s: Session, r: Reaction, later: seq<Option<Reaction>>)
    requires PageInRange(s.page, maxPage) && r.emojiName == "exit" && ByAuthorOnMenu(m, r)
    ensures var res := ControlsRun<T>(m, maxPage, s, [Some(r)] + later);
      && res.outcome == Exited && res.consumed == 1 && res.session.page == s.page
      && (Stop in res.session.log <==> Stop in s.log || m.autoExit)
  {
    assert ([Some(r)] + later)[0] == Some(r);
    var d := Selection(BaseSelection, s.page, maxPage, 0);
    var s1 := Present(s, d);
    assert s1.log == s.log || s1.log == s.log + [Serve(d)];
  }

  /** A navigation reaction by the author moves a paging session's page as
      the setter allows, asks the menu to switch, and starts a new round. */
  lemma ControlsNavigationByAuthor<T>(m: MenuContext, maxPage: nat, s: Session, r: Reaction, nav: Nav)
    requires PageInRange(s.page, maxPage) && ByAuthorOnMenu(m, r) && r.emojiName == NavName(nav)
    ensures var res := ControlsRun<T>(m, maxPage, s, [Some(r)]);
      && res.outcome == Pending && res.consumed == 1
      && res.session.page == Navigate(nav, s.page, maxPage)
      && Switch(NavName(nav)) in res.session.log
  {
    assert [Some(r)][1..] == [];
    var s1 := Present(s, Selection(BaseSelection, s.page, maxPage, 0));
    assert Classify(m, r) == Move(nav);
    var t := s1.(page := Navigate(nav, s.page, maxPage), log := s1.log + [Switch(r.emojiName)]);
    assert Switch(NavName(nav)) in t.log;
    var d := Selection(BaseSelection, t.page, maxPage, 0);
    assert Present(t, d).log == t.log || Present(t, d).log == t.log + [Serve(d)];
  }

  // ---------------------------------------------------------------------------
  // The selectors themselves

  /** `Selector`: a fixed reaction list and one round of waiting. */
  class Selector {
    const context: MenuContext
    var selection: seq<string>
    var log: seq<MenuEvent>

    constructor (context: MenuContext, selection: seq<string>)
      ensures this.context == context && this.selection == selection && log == []
    {
      this.context := context;
      this.selection := selection;
      log := [];
    }

    /** The `selection` setter of the base class. */
    method SetSelection(value: seq<string>)
      modifies this`selection
      ensures selection == value
    {
      selection := value;
    }

    predicate DefaultCheck(r: Reaction)
      reads this
    {
      Qualifies(context, selection, r)
    }

    /** `Selector.response`: serve, wait once, then stop on an author's exit
      when `auto_exit` is set, or hand back the reaction's name. */
    method Response(input: Option<Reaction>) returns (result: Option<string>)
      modifies this`log
      ensures result == BaseOutcome(context, input)
      ensures log == old(log) + [Serve(selection)] + BaseEvents(context, input)
    {
      log := log + [Serve(selection)];
      match input {
        case None =>
          log := log + [Timeout(context.timeout)];
          result := None;
        case Some(r) =>
          if r.emojiName == "exit" && r.userId == context.authorId && r.messageId == context.messageId && context.autoExit {
            log := log + [Stop];
            result := None;
          } else {
            result := Some(r.emojiName);
          }
      }
    }
  }

  predicate StopsOn(m: MenuContext, r: Reaction)
  {
    r.emojiName == "exit" && ByAuthorOnMenu(m, r) && m.autoExit
  }

  /** What `Selector.response` returns: nothing on a timeout or on an author's
      exit under `auto_exit`; otherwise the reaction's name, whoever reacted,
      on whatever message, whatever the emoji. */
  function BaseOutcome(m: MenuContext, input: Option<Reaction>): (result: Option<string>)
    ensures result == None <==> input == None || StopsOn(m, input.value)
    ensures result != None ==> result.value == input.value.emojiName
  {
    match input
    case None => None
    case Some(r) => if StopsOn(m, r) then None else Some(r.emojiName)
  }

  function BaseEvents(m: MenuContext, input: Option<Reaction>): seq<MenuEvent>
  {
    match input
    case None => [Timeout(m.timeout)]
    case Some(r) => if StopsOn(m, r) then [Stop] else []
  }

  /** `f"Page {page + 1:,} of {max_page:,}"`. */
  function PageInfo(page: int, maxPage: nat): string
    requires page >= 0
  {
    "Page " + Text.Grouped(page + 1) + " of " + Text.Grouped(maxPage)
  }

  /** The page line reads back: four space-separated words, the second and the
      fourth giving the one-based page number and the page count once their
      thousands separators are dropped. */
  lemma PageInfoReadsBack(page: int, maxPage: nat)
    requires page >= 0
    ensures var words := Text.Split(PageInfo(page, maxPage), ' ');
      && |words| == 4 && words[0] == "Page" && words[2] == "of"
      && Text.WithoutCommas(words[1]) == Text.Decimal(page + 1)
      && Text.WithoutCommas(words[3]) == Text.Decimal(maxPage)
  {
    var g1, g2 := Text.Grouped(page + 1), Text.Grouped(maxPage);
    var parts := ["Page", g1, "of", g2];
    assert Text.Join(parts, " ") == PageInfo(page, maxPage) by {
      assert Text.Join(parts[3..], " ") == g2;
      assert Text.Join(parts[2..], " ") == "of" + " " + g2;
      assert Text.Join(parts[1..], " ") == g1 + " " + ("of" + " " + g2);
    }
    assert ' ' !in g1 && ' ' !in g2;
    Text.SplitJoin(parts, ' ');
    Text.GroupedIsDecimal(page + 1);
    Text.GroupedIsDecimal(maxPage);
  }

  /** `NumericalSelector`: pages of 9 items, chosen by `option1` .. `option9`. */
  class NumericalSelector<T> {
    const context: MenuContext
    const items: seq<T>
    const maxPage: nat
    const pages: seq<map<string, T>>
    var selection: seq<string>
    var lastSelection: seq<string>
    var page: int
    var log: seq<MenuEvent>

    ghost predicate Valid()
      reads this
    {
      maxPage == |pages| && 0 <= page < maxPage
    }

    function State(): Session
      reads this
    {
      Session(page, selection, lastSelection, log)
    }

    constructor (context: MenuContext, items: seq<T>)
      ensures Valid() && this.context == context && this.items == items
      ensures PagesOf(items, pages)
      ensures State() == Session(0, [], [], [])
    {
      var built := BuildPages(items);
      this.context := context;
      this.items := items;
      maxPage := |items| / PageSize + 1;
      pages := built;
      selection, lastSelection, page, log := [], [], 0, [];
    }

    /** The `page` setter. */
    method SetPage(value: int)
      modifies this`page
      ensures page == Clamp(value, maxPage)
    {
      page := if value < maxPage - 1 then value else maxPage - 1;
      if page < 0 {
        page := 0;
      }
    }

    /** `set_selection`, through the `selection` setter. */
    method SetSelection()
      requires Valid()
      modifies this`selection, this`lastSelection
      ensures lastSelection == old(selection)
      ensures selection == Selection(BaseSelection, page, maxPage, |pages[page]|)
    {
      var s := BuildSelection(BaseSelection, page, maxPage, |pages[page]|);
      lastSelection := selection;
      selection := s;
    }

    predicate DefaultCheck(r: Reaction)
      reads this
    {
      Qualifies(context, selection, r)
    }

    function PageInfoText(): string
      reads this
      requires page >= 0
    {
      PageInfo(page, maxPage)
    }

    /** `response`, its recursion unrolled into a loop over the `wait_for`
        results. */
    method Response(inputs: seq<Option<Reaction>>) returns (outcome: Outcome<T>, consumed: nat)
      requires Valid()
      modifies this`selection, this`lastSelection, this`page, this`log
      ensures Valid()
      ensures Run(outcome, consumed, State()) == NumericalRun(context, pages, old(State()), inputs)
    {
      var i := 0;
      while true
        invariant Valid() && 0 <= i <= |inputs|
        invariant NumericalRun(context, pages, old(State()), inputs)
               == NumericalRun(context, pages, State(), inputs[i..]).Shifted(i)
        decreases |inputs| - i
      {
        ghost var head := State();
        Open();
        ghost var served := State();
        if i == |inputs| {
          return Pending, i;
        }
        assert inputs[i..][0] == inputs[i] && inputs[i..][1..] == inputs[i + 1..];
        var done;
        done, outcome := Round(inputs[i]);
        ghost var after := State();
        if done {
          assert NumericalRun(context, pages, head, inputs[i..]) == Run(outcome, 1, after);
          return outcome, i + 1;
        }
        assert NumericalRun(context, pages, head, inputs[i..]) == NumericalRun(context, pages, after, inputs[i + 1..]).Shifted(1);
        i := i + 1;
      }
    }

    /** The start of a round: `set_selection`, then `_serve` only when the
        reaction list changed. */
    method Open()
      requires Valid()
      modifies this`selection, this`lastSelection, this`log
      ensures Valid()
      ensures State() == Present(old(State()), Selection(BaseSelection, page, maxPage, |pages[page]|))
    {
      SetSelection();
      if selection != lastSelection {
        log := log + [Serve(selection)];
      }
    }

    /** The rest of a round, once `wait_for` has returned `input`. */
    method Round(input: Option<Reaction>) returns (done: bool, outcome: Outcome<T>)
      requires Valid()
      modifies this`page, this`log
      ensures Valid()
      ensures NumericalStep(context, pages, old(State()), input)
           == if done then Done(outcome, State()) else Next(State())
    {
      match input {
        case None =>
          log := log + [Timeout(context.timeout)];
          return true, TimedOut;
        case Some(r) =>
          match Classify(context, r) {
            case ExitMenu =>
              if context.autoExit {
                log := log + [Stop];
              }
              return true, Exited;
            case Move(nav) =>
              SetPage(NavTarget(nav, page, maxPage));
              log := log + [Switch(r.emojiName)];
              return false, Pending;
            case Other =>
              if r.emojiName in pages[page] {
                return true, Selected(pages[page][r.emojiName]);
              }
              return true, MissingKey(r.emojiName);
          }
      }
    }
  }

  /** `PageControls`: paging over precomputed page maps. */
  class PageControls<P> {
    const context: MenuContext
    const pagemaps: seq<P>
    const maxPage: nat
    var selection: seq<string>
    var lastSelection: seq<string>
    var page: int
    var log: seq<MenuEvent>

    ghost predicate Valid()
      reads this
    {
      maxPage == |pagemaps| && PageInRange(page, maxPage)
    }

    function State(): Session
      reads this
    {
      Session(page, selection, lastSelection, log)
    }

    constructor (context: MenuContext, pagemaps: seq<P>)
      ensures Valid() && this.context == context && this.pagemaps == pagemaps
      ensures State() == Session(0, [], [], [])
    {
      this.context := context;
      this.pagemaps := pagemaps;
      maxPage := |pagemaps|;
      selection, lastSelection, page, log := [], [], 0, [];
    }

    /** The `page` setter. */
    method SetPage(value: int)
      modifies this`page
      ensures page == Clamp(value, maxPage)
    {
      page := if value < maxPage - 1 then value else maxPage - 1;
      if page < 0 {
        page := 0;
      }
    }

    /** `set_selection`: the controls around the base, no numbered options. */
    method SetSelection()
      modifies this`selection, this`lastSelection
      ensures lastSelection == old(selection)
      ensures selection == Selection(BaseSelection, page, maxPage, 0)
    {
      var s := BuildSelection(BaseSelection, page, maxPage, 0);
      lastSelection := selection;
      selection := s;
    }

    predicate DefaultCheck(r: Reaction)
      reads this
    {
      Qualifies(context, selection, r)
    }

    function PageInfoText(): string
      reads this
      requires page >= 0
    {
      PageInfo(page, maxPage)
    }

    /** `response`, its recursion unrolled into a loop. */
    method Response(inputs: seq<Option<Reaction>>) returns (outcome: Outcome<P>, consumed: nat)
      requires Valid()
      modifies this`selection, this`lastSelection, this`page, this`log
      ensures Valid()
      ensures Run(outcome, consumed, State()) == ControlsRun<P>(context, maxPage, old(State()), inputs)
    {
      var i := 0;
      while true
        invariant Valid() && 0 <= i <= |inputs|
        invariant ControlsRun<P>(context, maxPage, old(State()), inputs)
               == ControlsRun<P>(context, maxPage, State(), inputs[i..]).Shifted(i)
        decreases |inputs| - i
      {
        ghost var head := State();
        Open();
        ghost var served := State();
        if i == |inputs| {
          return Pending, i;
        }
        assert inputs[i..][0] == inputs[i] && inputs[i..][1..] == inputs[i + 1..];
        var done;
        done, outcome := Round(inputs[i]);
        ghost var after := State();
        if done {
          assert ControlsRun<P>(context, maxPage, head, inputs[i..]) == Run(outcome, 1, after);
          return outcome, i + 1;
        }
        assert ControlsRun<P>(context, maxPage, head, inputs[i..]) == ControlsRun<P>(context, maxPage, after, inputs[i + 1..]).Shifted(1);
        i := i + 1;
      }
    }

    /** The start of a round: `set_selection`, then `_serve` only when the
        reaction list changed. */
    method Open()
      requires Valid()
      modifies this`selection, this`lastSelection, this`log
      ensures Valid()
      ensures State() == Present(old(State()), Selection(BaseSelection, page, maxPage, 0))
    {
      SetSelection();
      if selection != lastSelection {
        log := log + [Serve(selection)];
      }
    }

    /** The rest of a round, once `wait_for` has returned `input`. */
    method Round(input: Option<Reaction>) returns (done: bool, outcome: Outcome<P>)
      requires Valid()
      modifies this`page, this`log
      ensures Valid()
      ensures ControlsStep<P>(context, maxPage, old(State()), input)
           == if done then Done(outcome, State()) else Next(State())
    {
      match input {
        case None =>
          log := log + [Timeout(context.timeout)];
          return true, TimedOut;
        case Some(r) =>
          match Classify(context, r) {
            case ExitMenu =>
              if context.autoExit {
                log := log + [Stop];
              }
              return true, Exited;
            case Move(nav) =>
              SetPage(NavTarget(nav, page, maxPage));
              log := log + [Switch(r.emojiName)];
              return false, Pending;
            case Other =>
              log := log + [Switch(r.emojiName)];
              return false, Pending;
          }
      }
    }
  }
}
