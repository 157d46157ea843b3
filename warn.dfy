/** Official warnings and warn types.

    Each guild defines up to 25 warn types, each a lower-case name worth 1 to
    20 points. A moderator warns members with a type; every warning is a row
    of the `warns` table, and a member is banned once they hold too many
    warnings of one type or too many points in total. The two tables are
    sequences of rows held by `WarnTables`; the guild settings (`warn` table)
    are a read-only map. Bans and replies are reported, not performed; fresh
    warn ids, which the bot derives from the clock, are an input. */
module Warnings {
  import opened Wrappers
  import opened Rows
  import Text

  const MinPoints := 1
  const MaxPoints := 20
  const MaxWarnTypeLength := 25
  const MaxWarnTypes := 25
  const MaxCommentLength := 256
  const DefaultMaxStrikes := 3
  const DefaultMaxPoints := 12

  /** A row of `warntypes`. */
  datatype WarnType = WarnType(guild: nat, name: string, points: int)

  /** A row of `warns`, in the order the rows were written (`WarnTime`). */
  datatype Warn = Warn(id: string, guild: nat, user: nat, moderator: nat, kind: string, points: int, comment: Option<string>)

  /** A row of `warn`: the guild's limits and whether point edits apply to
      past warnings. */
  datatype Settings = Settings(maxPoints: Option<int>, maxStrikes: Option<int>, retroUpdates: Option<bool>)

  /** A target as the member converter gives it. */
  datatype Member = Member(id: nat, isBot: bool)

  /** `max_strikes or 3`: a missing row, a null or a zero means 3; any other
      stored value is the limit. */
  function StrikeLimit(s: Option<Settings>): (n: int)
    ensures n != 0
    ensures s.None? || s.value.maxStrikes in {None, Some(0)} ==> n == DefaultMaxStrikes
    ensures s.Some? && s.value.maxStrikes.Some? && s.value.maxStrikes.value != 0 ==> n == s.value.maxStrikes.value
  {
    if s.Some? && s.value.maxStrikes.Some? && s.value.maxStrikes.value != 0 then s.value.maxStrikes.value
    else DefaultMaxStrikes
  }

  /** `max_points or 12`: a missing row, a null or a zero means 12; any other
      stored value is the limit. */
  function PointLimit(s: Option<Settings>): (n: int)
    ensures n != 0
    ensures s.None? || s.value.maxPoints in {None, Some(0)} ==> n == DefaultMaxPoints
    ensures s.Some? && s.value.maxPoints.Some? && s.value.maxPoints.value != 0 ==> n == s.value.maxPoints.value
  {
    if s.Some? && s.value.maxPoints.Some? && s.value.maxPoints.value != 0 then s.value.maxPoints.value
    else DefaultMaxPoints
  }

  predicate RetroUpdates(s: Option<Settings>)
  {
    s.Some? && s.value.retroUpdates == Some(true)
  }

  predicate InRange(points: int)
  {
    MinPoints <= points <= MaxPoints
  }

  // ---------------------------------------------------------------------------
  // Queries over the tables

  /** The guild's warn type names, in table order. */
  function TypeNames(types: seq<WarnType>, guild: nat): (names: seq<string>)
    ensures |names| <= |types|
    ensures forall n :: n in names <==> exists t :: t in types && t.guild == guild && t.name == n
  {
    if types == [] then []
    else
      var rest := TypeNames(types[1..], guild);
      assert forall t :: t in types <==> t == types[0] || t in types[1..];
      if types[0].guild == guild then [types[0].name] + rest else rest
  }

  /** `type_map[name]` for the guild: the points of the last row of that
      name, as the dictionary comprehension keeps the last. */
  function PointsOf(types: seq<WarnType>, guild: nat, name: string): (p: Option<int>)
    ensures p.Some? <==> name in TypeNames(types, guild)
    ensures p.Some? ==> WarnType(guild, name, p.value) in types
  {
    if types == [] then None
    else
      var last := types[|types| - 1];
      var front := types[..|types| - 1];
      assert types == front + [last];
      assert forall t :: t in types <==> t == last || t in front;
      if last.guild == guild && last.name == name then Some(last.points)
      else PointsOf(front, guild, name)
  }

  /** The number of this member's warnings of this type in the guild. */
  function Strikes(warns: seq<Warn>, guild: nat, user: nat, kind: string): nat
  {
    if warns == [] then 0
    else (if warns[0].guild == guild && warns[0].user == user && warns[0].kind == kind then 1 else 0)
         + Strikes(warns[1..], guild, user, kind)
  }

  /** The member's warnings in the guild, oldest first. */
  function OfMember(warns: seq<Warn>, guild: nat, user: nat): (r: seq<Warn>)
    ensures |r| <= |warns|
    ensures forall w :: w in r <==> w in warns && w.guild == guild && w.user == user
  {
    if warns == [] then []
    else
      var rest := OfMember(warns[1..], guild, user);
      assert forall w :: w in warns <==> w == warns[0] || w in warns[1..];
      if warns[0].guild == guild && warns[0].user == user then [warns[0]] + rest else rest
  }

  lemma {:induction false} NoneOfMember(warns: seq<Warn>, guild: nat, user: nat)
    requires forall i :: 0 <= i < |warns| ==> !(warns[i].guild == guild && warns[i].user == user)
    ensures OfMember(warns, guild, user) == []
  {
    if warns != [] {
      NoneOfMember(warns[1..], guild, user);
    }
  }

  function TotalPoints(warns: seq<Warn>): int
  {
    if warns == [] then 0 else warns[0].points + TotalPoints(warns[1..])
  }

  // ---------------------------------------------------------------------------
  // Warning members

  /** Why a command refuses to act. */
  datatype Refusal =
    | NoTargets | BadIdentifier | OverrideOutOfRange | CommentTooLong | UnknownType
    | NoSuchWarn | NoWarns
    | NameTooLong | PointsOutOfRange | TooManyTypes | TypeExists | NoSuchType

  /** The checks of `warn`, in the order it makes them. */
  function CheckWarn(targets: seq<Member>, kind: string, override: Option<int>, comment: Option<string>,
                     names: seq<string>): (e: Option<Refusal>)
    ensures e.None? <==> |targets| > 0 && !Text.HasNonLowercase(kind)
                         && (override.Some? ==> InRange(override.value))
                         && (comment.Some? ==> |comment.value| <= MaxCommentLength)
                         && kind in names
  {
    if |targets| == 0 then Some(NoTargets)
    else if Text.HasNonLowercase(kind) then Some(BadIdentifier)
    else if override.Some? && !InRange(override.value) then Some(OverrideOutOfRange)
    else if comment.Some? && |comment.value| > MaxCommentLength then Some(CommentTooLong)
    else if kind !in names then Some(UnknownType)
    else None
  }

  /** What each warning of one call records. */
  datatype WarnCall = WarnCall(guild: nat, moderator: nat, kind: string, points: int, comment: Option<string>)

  /** What happened to a target once its warning was written. */
  datatype Verdict = Kept(strikes: nat, points: int) | BannedForStrikes(strikes: nat) | BannedForPoints(points: int)

  /** The ban rule: too many warnings of this type first, then too many points. */
  function Judge(warns: seq<Warn>, guild: nat, user: nat, kind: string, s: Option<Settings>): (v: Verdict)
    ensures v.BannedForStrikes? <==> Strikes(warns, guild, user, kind) >= StrikeLimit(s)
    ensures v.BannedForPoints? <==>
      Strikes(warns, guild, user, kind) < StrikeLimit(s) && TotalPoints(OfMember(warns, guild, user)) >= PointLimit(s)
  {
    var wc := Strikes(warns, guild, user, kind);
    if wc >= StrikeLimit(s) then BannedForStrikes(wc)
    else
      var points := TotalPoints(OfMember(warns, guild, user));
      if points >= PointLimit(s) then BannedForPoints(points) else Kept(wc, points)
  }

  datatype TargetReport = Skipped(user: nat) | Judged(user: nat, verdict: Verdict)
  {
    predicate IsBan()
    {
      Judged? && !verdict.Kept?
    }
  }

  /** How many reports stand for a written warning. */
  function Written(reports: seq<TargetReport>): nat
  {
    if reports == [] then 0 else (if reports[0].Judged? then 1 else 0) + Written(reports[1..])
  }

  lemma WrittenAppend(a: seq<TargetReport>, b: seq<TargetReport>)
    ensures Written(a + b) == Written(a) + Written(b)
  {
    if a == [] {
      assert a + b == b;
    } else {
      assert (a + b)[1..] == a[1..] + b;
      WrittenAppend(a[1..], b);
    }
  }

  datatype Processed = Processed(warns: seq<Warn>, reports: seq<TargetReport>)

  /** A row the call wrote for this user. */
  predicate RecordedFor(w: Warn, c: WarnCall, targets: seq<Member>)
  {
    && w.guild == c.guild && w.moderator == c.moderator && w.kind == c.kind
    && w.points == c.points && w.comment == c.comment
    && exists j :: 0 <= j < |targets| && targets[j].id == w.user && !targets[j].isBot
  }

  /** The target loop of `warn`: bots are skipped with no row; every other
      target gets one row and is judged; a ban ends the loop. */
  function Process(warns: seq<Warn>, c: WarnCall, s: Option<Settings>, targets: seq<Member>, ids: seq<string>): (res: Processed)
    requires |ids| == |targets|
    ensures |res.reports| <= |targets|
    ensures |res.warns| >= |warns| && res.warns[..|warns|] == warns
    decreases |targets|
  {
    if targets == [] then Processed(warns, [])
    else
      var t := targets[0];
      if t.isBot then
        var rest := Process(warns, c, s, targets[1..], ids[1..]);
        Processed(rest.warns, [Skipped(t.id)] + rest.reports)
      else
        var written := warns + [Warn(ids[0], c.guild, t.id, c.moderator, c.kind, c.points, c.comment)];
        var verdict := Judge(written, c.guild, t.id, c.kind, s);
        if !verdict.Kept? then Processed(written, [Judged(t.id, verdict)])
        else
          var rest := Process(written, c, s, targets[1..], ids[1..]);
          assert rest.warns[..|warns|] == rest.warns[..|written|][..|warns|];
          Processed(rest.warns, [Judged(t.id, verdict)] + rest.reports)
  }

  /** The loop writes one row per judged target, each recording the call
      for a human target, and only its last report can be a ban. */
  lemma {:induction false} ProcessWrites(warns: seq<Warn>, c: WarnCall, s: Option<Settings>, targets: seq<Member>, ids: seq<string>)
    requires |ids| == |targets|
    ensures var res := Process(warns, c, s, targets, ids);
      && |res.warns| - |warns| == Written(res.reports)
      && (forall i :: |warns| <= i < |res.warns| ==> RecordedFor(res.warns[i], c, targets))
      && (forall i :: 0 <= i < |res.reports| - 1 ==> !res.reports[i].IsBan())
    decreases |targets|
  {
    if targets != [] {
      var t := targets[0];
      assert forall j :: 0 <= j < |targets[1..]| ==> targets[1..][j] == targets[j + 1];
      var res := Process(warns, c, s, targets, ids);
      if t.isBot {
        ProcessWrites(warns, c, s, targets[1..], ids[1..]);
      } else {
        var written := warns + [Warn(ids[0], c.guild, t.id, c.moderator, c.kind, c.points, c.comment)];
        var verdict := Judge(written, c.guild, t.id, c.kind, s);
        if verdict.Kept? {
          ProcessWrites(written, c, s, targets[1..], ids[1..]);
          var rest := Process(written, c, s, targets[1..], ids[1..]);
          assert res.reports == [Judged(t.id, verdict)] + rest.reports;
          assert res.reports[1..] == rest.reports;
          forall i | |warns| <= i < |res.warns|
            ensures RecordedFor(res.warns[i], c, targets)
          {
            if i == |warns| {
              assert res.warns[i] == res.warns[..|written|][i] == written[i];
              assert targets[0].id == res.warns[i].user;
            }
          }
        } else {
          assert res.warns[|warns|] == written[|warns|];
          assert targets[0].id == res.warns[|warns|].user;
        }
      }
    }
  }

  function Then(reports: seq<TargetReport>, p: Processed): Processed
  {
    Processed(p.warns, reports + p.reports)
  }

  lemma ThenThen(a: seq<TargetReport>, b: seq<TargetReport>, p: Processed)
    ensures Then(a, Then(b, p)) == Then(a + b, p)
  {
    assert a + (b + p.reports) == (a + b) + p.reports;
  }

  /** When every target is a bot, nothing is written and every target is
      reported skipped. */
  lemma {:induction false} OnlyBots(warns: seq<Warn>, c: WarnCall, s: Option<Settings>, targets: seq<Member>, ids: seq<string>)
    requires |ids| == |targets|
    requires forall j :: 0 <= j < |targets| ==> targets[j].isBot
    ensures var res := Process(warns, c, s, targets, ids);
      res.warns == warns && |res.reports| == |targets|
      && forall j :: 0 <= j < |targets| ==> res.reports[j] == Skipped(targets[j].id)
    decreases |targets|
  {
    if targets != [] {
      OnlyBots(warns, c, s, targets[1..], ids[1..]);
    }
  }

  /** Report `i` is about `targets[i]`: a bot is reported skipped and every
      other target judged; the loop reports every target unless it stopped at
      a ban, which is then its last report. */
  lemma ProcessReports(warns: seq<Warn>, c: WarnCall, s: Option<Settings>, targets: seq<Member>, ids: seq<string>)
    requires |ids| == |targets|
    ensures var res := Process(warns, c, s, targets, ids);
      && (forall i :: 0 <= i < |res.reports| ==> res.reports[i].user == targets[i].id)
      && (forall i :: 0 <= i < |res.reports| ==> (res.reports[i].Skipped? <==> targets[i].isBot))
      && (|res.reports| == |targets| || (|res.reports| > 0 && res.reports[|res.reports| - 1].IsBan()))
  {
    ReportsFollowTargets(warns, c, s, targets, ids);
    ReportsComplete(warns, c, s, targets, ids);
  }

  lemma {:induction false} ReportsFollowTargets(warns: seq<Warn>, c: WarnCall, s: Option<Settings>, targets: seq<Member>, ids: seq<string>)
    requires |ids| == |targets|
    ensures var res := Process(warns, c, s, targets, ids);
      forall i :: 0 <= i < |res.reports| ==>
        res.reports[i].user == targets[i].id && (res.reports[i].Skipped? <==> targets[i].isBot)
    decreases |targets|
  {
    if targets != [] {
      var t := targets[0];
      var res := Process(warns, c, s, targets, ids);
      var written := warns + [Warn(ids[0], c.guild, t.id, c.moderator, c.kind, c.points, c.comment)];
      var next := if t.isBot then warns else written;
      if t.isBot || Judge(written, c.guild, t.id, c.kind, s).Kept? {
        ReportsFollowTargets(next, c, s, targets[1..], ids[1..]);
        var rest := Process(next, c, s, targets[1..], ids[1..]);
        assert res.reports[1..] == rest.reports;
        forall i | 1 <= i < |res.reports|
          ensures res.reports[i].user == targets[i].id && (res.reports[i].Skipped? <==> targets[i].isBot)
        {
          assert res.reports[i] == rest.reports[i - 1] && targets[i] == targets[1..][i - 1];
        }
      }
    }
  }

  lemma {:induction false} ReportsComplete(warns: seq<Warn>, c: WarnCall, s: Option<Settings>, targets: seq<Member>, ids: seq<string>)
    requires |ids| == |targets|
    ensures var res := Process(warns, c, s, targets, ids);
      |res.reports| == |targets| || (|res.reports| > 0 && res.reports[|res.reports| - 1].IsBan())
    decreases |targets|
  {
    if targets != [] {
      var t := targets[0];
      var res := Process(warns, c, s, targets, ids);
      var written := warns + [Warn(ids[0], c.guild, t.id, c.moderator, c.kind, c.points, c.comment)];
      var next := if t.isBot then warns else written;
      if t.isBot || Judge(written, c.guild, t.id, c.kind, s).Kept? {
        ReportsComplete(next, c, s, targets[1..], ids[1..]);
        var rest := Process(next, c, s, targets[1..], ids[1..]);
        assert res.reports == [res.reports[0]] + rest.reports;
        if |rest.reports| > 0 {
          assert res.reports[|res.reports| - 1] == rest.reports[|rest.reports| - 1];
        }
      }
    }
  }

  /** With no settings row for the guild, a target is banned once they hold
      three warnings of this type, or else twelve points in all. */
  lemma DefaultLimitsBan(warns: seq<Warn>, guild: nat, user: nat, kind: string)
    ensures var v := Judge(warns, guild, user, kind, None);
      && (v.BannedForStrikes? <==> Strikes(warns, guild, user, kind) >= 3)
      && (v.BannedForPoints? <==> Strikes(warns, guild, user, kind) < 3 && TotalPoints(OfMember(warns, guild, user)) >= 12)
  {
  }

  /** The first human target's verdict; a ban there leaves every later target
      without a row. */
  lemma FirstTargetBanned(warns: seq<Warn>, c: WarnCall, s: Option<Settings>, targets: seq<Member>, ids: seq<string>)
    requires |ids| == |targets| && |targets| > 0 && !targets[0].isBot
    requires Judge(warns + [Warn(ids[0], c.guild, targets[0].id, c.moderator, c.kind, c.points, c.comment)],
                   c.guild, targets[0].id, c.kind, s).BannedForStrikes?
    ensures var res := Process(warns, c, s, targets, ids);
      |res.warns| == |warns| + 1 && |res.reports| == 1 && res.reports[0].IsBan()
  {
  }

  // ---------------------------------------------------------------------------
  // Listing a member's warnings

  /** Whom `warn list` is about: nobody given, a resolved member, or text the
      converter could not resolve. */
  datatype ListTarget = Nobody | Resolved(id: nat) | Unresolved(text: string)

  datatype WarnList = WarnList(points: int, shown: nat, total: nat, entries: seq<Warn>)

  function Reverse(s: seq<Warn>): (r: seq<Warn>)
    ensures |r| == |s| && forall i :: 0 <= i < |s| ==> r[i] == s[|s| - 1 - i]
  {
    if s == [] then [] else Reverse(s[1..]) + [s[0]]
  }

  /** `records[-10:]`. */
  function LastTen(s: seq<Warn>): seq<Warn>
  {
    if |s| <= 10 then s else s[|s| - 10..]
  }

  /** `warn list`: the member's warnings newest first, their points total,
      and the last ten of that list. `target or ctx.author` treats empty text
      like no target. */
  function ListWarns(warns: seq<Warn>, guild: nat, author: nat, target: ListTarget): Result<WarnList, string>
  {
    var t := if target.Nobody? || (target.Unresolved? && target.text == "") then Resolved(author) else target;
    if t.Unresolved? then Err("unable to identify a member")
    else
      var records := Reverse(OfMember(warns, guild, t.id));
      Ok(WarnList(TotalPoints(records), if |records| < 10 then |records| else 10, |records|, LastTen(records)))
  }

  lemma {:induction false} TotalReverse(s: seq<Warn>)
    ensures TotalPoints(Reverse(s)) == TotalPoints(s)
  {
    if s != [] {
      TotalReverse(s[1..]);
      TotalAppend(Reverse(s[1..]), [s[0]]);
    }
  }

  lemma {:induction false} TotalAppend(a: seq<Warn>, b: seq<Warn>)
    ensures TotalPoints(a + b) == TotalPoints(a) + TotalPoints(b)
  {
    if a == [] {
      assert a + b == b;
    } else {
      assert (a + b)[1..] == a[1..] + b;
      TotalAppend(a[1..], b);
    }
  }

  /** The list totals every warning's points and counts `min(n, 10)` of `n`;
      since the rows come newest first, the ten it shows are the member's ten
      OLDEST warnings, newest of them first. */
  lemma ListShowsOldest(warns: seq<Warn>, guild: nat, author: nat, id: nat)
    ensures var m := OfMember(warns, guild, id);
      var l := ListWarns(warns, guild, author, Resolved(id));
      && l.Ok?
      && l.value.points == TotalPoints(m)
      && l.value.total == |m|
      && l.value.shown == |l.value.entries| <= 10
      && l.value.entries == Reverse(m[..l.value.shown])
  {
    var m := OfMember(warns, guild, id);
    TotalReverse(m);
    var r := Reverse(m);
    var k := if |m| < 10 then |m| else 10;
    assert LastTen(r) == Reverse(m[..k]);
  }

  // ---------------------------------------------------------------------------
  // Row selections and updates, as `WHERE` and `SET` clauses

  function KindIs(guild: nat, kind: string): Warn -> bool
  {
    (w: Warn) => w.guild == guild && w.kind == kind
  }

  function KindAtPoints(guild: nat, kind: string, default: Option<int>): Warn -> bool
  {
    (w: Warn) => w.guild == guild && w.kind == kind && Some(w.points) == default
  }

  function HasId(id: string): Warn -> bool
  {
    (w: Warn) => w.id == id
  }

  function UserIs(guild: nat, user: nat): Warn -> bool
  {
    (w: Warn) => w.guild == guild && w.user == user
  }

  function TypeIs(guild: nat, name: string): WarnType -> bool
  {
    (k: WarnType) => k.guild == guild && k.name == name
  }

  function SetKind(to: string): Warn -> Warn
  {
    (w: Warn) => w.(kind := to)
  }

  function SetPoints(points: int): Warn -> Warn
  {
    (w: Warn) => w.(points := points)
  }

  function SetKindAndPoints(to: string, points: int): Warn -> Warn
  {
    (w: Warn) => w.(kind := to, points := points)
  }

  /** `UPDATE ... SET ... WHERE` on the warnings. */
  function UpdateWhere(warns: seq<Warn>, matches: Warn -> bool, change: Warn -> Warn): (r: seq<Warn>)
  {
    seq(|warns|, i requires 0 <= i < |warns| => if matches(warns[i]) then change(warns[i]) else warns[i])
  }

  /** `UPDATE warntypes SET WarnType = ...` on the guild's row of that name. */
  function RenameRows(types: seq<WarnType>, guild: nat, from: string, to: string): (r: seq<WarnType>)
  {
    seq(|types|, i requires 0 <= i < |types| =>
      if types[i].guild == guild && types[i].name == from then types[i].(name := to) else types[i])
  }

  /** `UPDATE warntypes SET Points = ...` on the guild's row of that name. */
  function RepointRows(types: seq<WarnType>, guild: nat, name: string, points: int): (r: seq<WarnType>)
  {
    seq(|types|, i requires 0 <= i < |types| =>
      if types[i].guild == guild && types[i].name == name then types[i].(points := points) else types[i])
  }

  // ---------------------------------------------------------------------------
  // What the commands keep true of the tables

  datatype Tables = Tables(types: seq<WarnType>, warns: seq<Warn>)

  /** Every warning names a warn type of its guild. */
  ghost predicate Referenced(t: Tables)
  {
    forall w :: w in t.warns ==> w.kind in TypeNames(t.types, w.guild)
  }

  predicate Distinct(a: WarnType, b: WarnType)
  {
    a.guild == b.guild ==> a.name != b.name
  }

  /** Names are unique within a guild. */
  ghost predicate Unique(types: seq<WarnType>)
  {
    forall i, j :: 0 <= i < j < |types| ==> Distinct(types[i], types[j])
  }

  /** Warnings name existing types; a guild's type names are unique, lower
      case and worth 1 to 20 points; no guild has more than 25 types. */
  ghost predicate Consistent(t: Tables)
  {
    && Referenced(t) && Unique(t.types)
    && (forall k :: k in t.types ==> InRange(k.points) && !Text.HasNonLowercase(k.name))
    && (forall g :: |TypeNames(t.types, g)| <= MaxWarnTypes)
  }

  lemma {:induction false} TypeNamesSnoc(types: seq<WarnType>, k: WarnType, g: nat)
    ensures TypeNames(types + [k], g) == TypeNames(types, g) + (if k.guild == g then [k.name] else [])
  {
    if types == [] {
      assert types + [k] == [k];
      assert [k][1..] == [];
    } else {
      assert (types + [k])[1..] == types[1..] + [k];
      TypeNamesSnoc(types[1..], k, g);
    }
  }

  /** Changing only points leaves each guild's names as they were. */
  lemma {:induction false} NamesUnchanged(a: seq<WarnType>, b: seq<WarnType>, g: nat)
    requires |a| == |b| && forall i :: 0 <= i < |a| ==> a[i].guild == b[i].guild && a[i].name == b[i].name
    ensures TypeNames(a, g) == TypeNames(b, g)
  {
    if a != [] {
      NamesUnchanged(a[1..], b[1..], g);
    }
  }

  /** Changing only names leaves each guild's number of types as it was. */
  lemma {:induction false} CountUnchanged(a: seq<WarnType>, b: seq<WarnType>, g: nat)
    requires |a| == |b| && forall i :: 0 <= i < |a| ==> a[i].guild == b[i].guild
    ensures |TypeNames(a, g)| == |TypeNames(b, g)|
  {
    if a != [] {
      CountUnchanged(a[1..], b[1..], g);
    }
  }

  lemma {:induction false} FilterFewerNames(types: seq<WarnType>, drop: WarnType -> bool, g: nat)
    ensures |TypeNames(Filter(types, drop), g)| <= |TypeNames(types, g)|
  {
    if types != [] {
      FilterFewerNames(types[1..], drop, g);
      var rest := Filter(types[1..], drop);
      if !drop(types[0]) {
        var r := [types[0]] + rest;
        assert r[0] == types[0] && r[1..] == rest;
      }
    }
  }

  lemma FilterKeepsUnique(types: seq<WarnType>, drop: WarnType -> bool)
    requires Unique(types)
    ensures Unique(Filter(types, drop))
  {
    FilterKeepsPairwise(types, drop, Distinct);
  }

  /** The warning loop writes rows of an existing type only. */
  lemma ProcessKeepsConsistent(t: Tables, c: WarnCall, s: Option<Settings>, targets: seq<Member>, ids: seq<string>)
    requires Consistent(t) && |ids| == |targets| && c.kind in TypeNames(t.types, c.guild)
    ensures Consistent(Tables(t.types, Process(t.warns, c, s, targets, ids).warns))
  {
    var p := Process(t.warns, c, s, targets, ids);
    ProcessWrites(t.warns, c, s, targets, ids);
    forall w | w in p.warns
      ensures w.kind in TypeNames(t.types, w.guild)
    {
      var i :| 0 <= i < |p.warns| && p.warns[i] == w;
      if i < |t.warns| {
        assert p.warns[..|t.warns|][i] == w;
        assert w in t.warns;
      } else {
        assert RecordedFor(p.warns[i], c, targets);
      }
    }
  }

  /** A new warn type of a fresh name keeps the tables consistent while the
      guild has fewer than 25 types. */
  lemma AddKeepsConsistent(t: Tables, k: WarnType)
    requires Consistent(t)
    requires InRange(k.points) && !Text.HasNonLowercase(k.name)
    requires k.name !in TypeNames(t.types, k.guild) && |TypeNames(t.types, k.guild)| < MaxWarnTypes
    ensures Consistent(Tables(t.types + [k], t.warns))
  {
    var types := t.types + [k];
    forall g
      ensures TypeNames(types, g) == TypeNames(t.types, g) + (if k.guild == g then [k.name] else [])
    {
      TypeNamesSnoc(t.types, k, g);
    }
    forall i, j | 0 <= i < j < |types|
      ensures Distinct(types[i], types[j])
    {
      if j == |types| - 1 {
        assert types[i] == t.types[i] && types[i] in t.types;
      } else {
        assert types[i] == t.types[i] && types[j] == t.types[j];
      }
    }
  }

  /** Deleting a warn type and its warnings keeps the tables consistent, and
      the name is gone from the guild. */
  lemma DeleteKeepsConsistent(t: Tables, guild: nat, name: string)
    requires Consistent(t)
    ensures var r := Tables(Filter(t.types, TypeIs(guild, name)), Filter(t.warns, KindIs(guild, name)));
      Consistent(r) && name !in TypeNames(r.types, guild)
  {
    var r := Tables(Filter(t.types, TypeIs(guild, name)), Filter(t.warns, KindIs(guild, name)));
    FilterKeepsUnique(t.types, TypeIs(guild, name));
    forall g
      ensures |TypeNames(r.types, g)| <= MaxWarnTypes
    {
      FilterFewerNames(t.types, TypeIs(guild, name), g);
    }
    forall w | w in r.warns
      ensures w.kind in TypeNames(r.types, w.guild)
    {
      assert w in t.warns && !(w.guild == guild && w.kind == name);
      var k :| k in t.types && k.guild == w.guild && k.name == w.kind;
      assert k in r.types;
    }
  }

  // ---------------------------------------------------------------------------
  // Warn type edits, as written and as intended

  /** The rename branch: the type row and its warnings take the new name. */
  function Rename(t: Tables, guild: nat, from: string, to: string): Tables
  {
    Tables(RenameRows(t.types, guild, from, to), UpdateWhere(t.warns, KindIs(guild, from), SetKind(to)))
  }

  /** The points branch: with retroactive updates, warnings that carry the
      type's current points take the new points; the type row takes them too. */
  function Repoint(t: Tables, guild: nat, name: string, points: int, retro: bool): Tables
  {
    var warns := if retro then UpdateWhere(t.warns, KindAtPoints(guild, name, PointsOf(t.types, guild, name)), SetPoints(points))
                 else t.warns;
    Tables(RepointRows(t.types, guild, name, points), warns)
  }

  /** The branch for a new name and new points together, as written: only the
      warnings change — those carrying the type's current points when updates
      are retroactive, all of them otherwise — and the type row is left as it
      was. */
  function RenameRepointAsWritten(t: Tables, guild: nat, from: string, to: string, points: int, retro: bool): Tables
  {
    if retro then
      Tables(t.types, UpdateWhere(t.warns, KindAtPoints(guild, from, PointsOf(t.types, guild, from)), SetKindAndPoints(to, points)))
    else
      Tables(t.types, UpdateWhere(t.warns, KindIs(guild, from), SetKind(to)))
  }

  /** The same branch as evidently intended: the rename, then the points edit. */
  function RenameRepoint(t: Tables, guild: nat, from: string, to: string, points: int, retro: bool): Tables
  {
    Repoint(Rename(t, guild, from, to), guild, to, points, retro)
  }

  /** Found in `warntype edit`: asked for a new name and new points at once, it
      renames the warnings but never the type, so they name a type that does
      not exist (and, without retroactive updates, the new points go nowhere). */
  lemma RenameRepointAsWrittenLosesType()
    ensures var before := Tables([WarnType(1, "spam", 2)], [Warn("w1", 1, 7, 9, "spam", 2, None)]);
      var after := RenameRepointAsWritten(before, 1, "spam", "flood", 3, false);
      Referenced(before) && !Referenced(after) && after.types == before.types
  {
    var before := Tables([WarnType(1, "spam", 2)], [Warn("w1", 1, 7, 9, "spam", 2, None)]);
    var after := RenameRepointAsWritten(before, 1, "spam", "flood", 3, false);
    assert TypeNames(before.types, 1) == ["spam"];
    assert after.warns[0] in after.warns;
    assert "flood" !in TypeNames(after.types, 1);
  }

  lemma RenameKeepsReferences(t: Tables, guild: nat, from: string, to: string)
    requires Referenced(t)
    ensures Referenced(Rename(t, guild, from, to))
  {
    var r := Rename(t, guild, from, to);
    forall w | w in r.warns
      ensures w.kind in TypeNames(r.types, w.guild)
    {
      var i :| 0 <= i < |r.warns| && r.warns[i] == w;
      var old_w := t.warns[i];
      assert old_w in t.warns;
      var k :| k in t.types && k.guild == old_w.guild && k.name == old_w.kind;
      var j :| 0 <= j < |t.types| && t.types[j] == k;
      assert r.types[j] in r.types;
    }
  }

  lemma RenameKeepsConsistent(t: Tables, guild: nat, from: string, to: string)
    requires Consistent(t)
    requires from in TypeNames(t.types, guild) && to !in TypeNames(t.types, guild) && !Text.HasNonLowercase(to)
    ensures var r := Rename(t, guild, from, to);
      Consistent(r) && from !in TypeNames(r.types, guild) && to in TypeNames(r.types, guild)
  {
    var r := Rename(t, guild, from, to);
    RenameKeepsReferences(t, guild, from, to);
    RenameKeepsUnique(t.types, guild, from, to);
    forall k | k in r.types
      ensures InRange(k.points) && !Text.HasNonLowercase(k.name)
    {
      var i :| 0 <= i < |r.types| && r.types[i] == k;
      assert t.types[i] in t.types;
    }
    forall g
      ensures |TypeNames(r.types, g)| <= MaxWarnTypes
    {
      CountUnchanged(t.types, r.types, g);
    }
    assert to in TypeNames(r.types, guild) by {
      var k :| k in t.types && k.guild == guild && k.name == from;
      var i :| 0 <= i < |t.types| && t.types[i] == k;
      assert r.types[i] in r.types;
    }
  }

  /** Renaming to a name the guild does not use keeps names unique. */
  lemma RenameKeepsUnique(types: seq<WarnType>, guild: nat, from: string, to: string)
    requires Unique(types) && to !in TypeNames(types, guild)
    ensures Unique(RenameRows(types, guild, from, to))
  {
    var r := RenameRows(types, guild, from, to);
    forall i, j | 0 <= i < j < |r|
      ensures Distinct(r[i], r[j])
    {
      assert types[i] in types && types[j] in types;
      assert Distinct(types[i], types[j]);
    }
  }

  lemma RepointKeepsConsistent(t: Tables, guild: nat, name: string, points: int, retro: bool)
    requires Consistent(t) && InRange(points)
    ensures var r := Repoint(t, guild, name, points, retro);
      && Consistent(r)
      && (forall g :: TypeNames(r.types, g) == TypeNames(t.types, g))
      && (name in TypeNames(t.types, guild) ==> PointsOf(r.types, guild, name) == Some(points))
  {
    var r := Repoint(t, guild, name, points, retro);
    RepointKeepsNames(t.types, guild, name, points);
    forall w | w in r.warns
      ensures w.kind in TypeNames(r.types, w.guild)
    {
      var i :| 0 <= i < |r.warns| && r.warns[i] == w;
      assert t.warns[i] in t.warns;
    }
    forall i, j | 0 <= i < j < |r.types|
      ensures Distinct(r.types[i], r.types[j])
    {
      assert Distinct(t.types[i], t.types[j]);
    }
    forall k | k in r.types
      ensures InRange(k.points) && !Text.HasNonLowercase(k.name)
    {
      var i :| 0 <= i < |r.types| && r.types[i] == k;
      assert t.types[i] in t.types;
    }
    if name in TypeNames(t.types, guild) {
      RepointSetsPoints(t.types, guild, name, points);
    }
  }

  /** Changing points renames nothing. */
  lemma RepointKeepsNames(types: seq<WarnType>, guild: nat, name: string, points: int)
    ensures forall g :: TypeNames(RepointRows(types, guild, name, points), g) == TypeNames(types, g)
  {
    forall g
      ensures TypeNames(RepointRows(types, guild, name, points), g) == TypeNames(types, g)
    {
      NamesUnchanged(types, RepointRows(types, guild, name, points), g);
    }
  }

  /** After the points edit, the type's points read back as the new ones. */
  lemma RepointSetsPoints(types: seq<WarnType>, guild: nat, name: string, points: int)
    requires name in TypeNames(types, guild)
    ensures PointsOf(RepointRows(types, guild, name, points), guild, name) == Some(points)
  {
    var r := RepointRows(types, guild, name, points);
    RepointKeepsNames(types, guild, name, points);
    var p := PointsOf(r, guild, name);
    var i :| 0 <= i < |r| && r[i] == WarnType(guild, name, p.value);
    assert types[i].guild == guild && types[i].name == name;
  }

  /** The intended edit keeps the tables consistent, given the checks the
      command makes: the old name exists, the new one does not and is lower
      case, and the points are in range. Afterwards the type is found under
      its new name with its new points, and the old name is gone. */
  lemma RenameRepointKeepsConsistent(t: Tables, guild: nat, from: string, to: string, points: int, retro: bool)
    requires Consistent(t) && InRange(points) && !Text.HasNonLowercase(to)
    requires from in TypeNames(t.types, guild) && to !in TypeNames(t.types, guild)
    ensures var after := RenameRepoint(t, guild, from, to, points, retro);
      && Consistent(after)
      && PointsOf(after.types, guild, to) == Some(points)
      && from !in TypeNames(after.types, guild)
  {
    RenameKeepsConsistent(t, guild, from, to);
    RepointKeepsConsistent(Rename(t, guild, from, to), guild, to, points, retro);
  }

  /** Renaming a type and renaming it back restores both tables. */
  lemma RenameRoundTrip(t: Tables, guild: nat, from: string, to: string)
    requires Referenced(t) && to !in TypeNames(t.types, guild)
    ensures Rename(Rename(t, guild, from, to), guild, to, from) == t
  {
    var r := Rename(Rename(t, guild, from, to), guild, to, from);
    forall i | 0 <= i < |t.types|
      ensures r.types[i] == t.types[i]
    {
      assert t.types[i] in t.types;
    }
    forall i | 0 <= i < |t.warns|
      ensures r.warns[i] == t.warns[i]
    {
      assert t.warns[i] in t.warns;
    }
  }

  /** The checks of `warntype new`, in its order. */
  function CheckNew(names: seq<string>, name: string, points: int): (e: Option<Refusal>)
    ensures e.None? <==> !Text.HasNonLowercase(name) && |name| <= MaxWarnTypeLength && InRange(points)
                         && |names| != MaxWarnTypes && name !in names
  {
    if Text.HasNonLowercase(name) then Some(BadIdentifier)
    else if |name| > MaxWarnTypeLength then Some(NameTooLong)
    else if !InRange(points) then Some(PointsOutOfRange)
    else if |names| == MaxWarnTypes then Some(TooManyTypes)
    else if name in names then Some(TypeExists)
    else None
  }

  /** The checks of `warntype edit`, in its order; each field is checked only
      when supplied. */
  function CheckEdit(names: seq<string>, kind: string, newPoints: Option<int>, newName: Option<string>): (e: Option<Refusal>)
    ensures e.None? <==>
      && (newPoints.Some? ==> InRange(newPoints.value))
      && (newName.Some? ==> !Text.HasNonLowercase(newName.value) && newName.value != kind
                            && kind in names && newName.value !in names)
  {
    if newPoints.Some? && !InRange(newPoints.value) then Some(PointsOutOfRange)
    else if newName.Some? && Text.HasNonLowercase(newName.value) then Some(BadIdentifier)
    else if newName.Some? && newName.value == kind then Some(TypeExists)
    else if newName.Some? && kind !in names then Some(NoSuchType)
    else if newName.Some? && newName.value in names then Some(TypeExists)
    else None
  }

  /** The updates of `warntype edit` once its checks pass, as written: a new
      name and new points together update only the warnings. A field acts
      only when truthy: an empty new name renames nothing. */
  function EditAsWritten(t: Tables, guild: nat, kind: string, newPoints: Option<int>, newName: Option<string>, retro: bool): Tables
  {
    var rename := newName.Some? && newName.value != "";
    var repoint := newPoints.Some? && newPoints.value != 0;
    if rename && repoint then RenameRepointAsWritten(t, guild, kind, newName.value, newPoints.value, retro)
    else if rename then Rename(t, guild, kind, newName.value)
    else if repoint then Repoint(t, guild, kind, newPoints.value, retro)
    else t
  }

  /** The updates of `warntype edit` as evidently intended: the as-written
      ones, except that a new name and new points together make the
      corrected edit `RenameRepoint`. */
  function Edit(t: Tables, guild: nat, kind: string, newPoints: Option<int>, newName: Option<string>, retro: bool): Tables
  {
    var rename := newName.Some? && newName.value != "";
    var repoint := newPoints.Some? && newPoints.value != 0;
    if rename && repoint then RenameRepoint(t, guild, kind, newName.value, newPoints.value, retro)
    else if rename then Rename(t, guild, kind, newName.value)
    else if repoint then Repoint(t, guild, kind, newPoints.value, retro)
    else t
  }

  /** The corrected and the as-written edit differ only when both fields are
      given. */
  lemma EditAsWrittenAgrees(t: Tables, guild: nat, kind: string, newPoints: Option<int>, newName: Option<string>, retro: bool)
    requires !(newName.Some? && newName.value != "" && newPoints.Some? && newPoints.value != 0)
    ensures EditAsWritten(t, guild, kind, newPoints, newName, retro) == Edit(t, guild, kind, newPoints, newName, retro)
  {
  }

  /** The tables of the finding: type `spam` worth 2 points, and one warning
      of that type. */
  function FindingTables(): (t: Tables)
    ensures TypeNames(t.types, 1) == ["spam"]
  {
    Tables([WarnType(1, "spam", 2)], [Warn("w1", 1, 7, 9, "spam", 2, None)])
  }

  /** On the tables of the finding, `warntype edit spam 3 flood` passes the
      checks, and the as-written edit leaves a warning without its type while
      the corrected one keeps every warning's type. */
  lemma EditAsWrittenDiffers()
    ensures CheckEdit(TypeNames(FindingTables().types, 1), "spam", Some(3), Some("flood")).None?
    ensures !Referenced(EditAsWritten(FindingTables(), 1, "spam", Some(3), Some("flood"), false))
    ensures Referenced(Edit(FindingTables(), 1, "spam", Some(3), Some("flood"), false))
  {
    var before := FindingTables();
    assert !Text.HasNonLowercase("flood") by {
      assert forall i :: 0 <= i < |"flood"| ==> 'a' <= "flood"[i] <= 'z';
    }
    RenameRepointAsWrittenLosesType();
    FindingTablesConsistent();
    RenameRepointKeepsConsistent(before, 1, "spam", "flood", 3, false);
  }

  lemma FindingTablesConsistent()
    ensures Consistent(FindingTables())
  {
    var before := FindingTables();
    assert !Text.HasNonLowercase("spam") by {
      assert forall i :: 0 <= i < |"spam"| ==> 'a' <= "spam"[i] <= 'z';
    }
    forall g
      ensures |TypeNames(before.types, g)| <= MaxWarnTypes
    {
      assert before.types[1..] == [];
    }
  }

  /** Every edit the checks let through keeps the tables consistent, with
      the corrected edit of both fields. */
  lemma EditKeepsConsistent(t: Tables, guild: nat, kind: string, newPoints: Option<int>, newName: Option<string>, retro: bool)
    requires Consistent(t) && CheckEdit(TypeNames(t.types, guild), kind, newPoints, newName).None?
    ensures Consistent(Edit(t, guild, kind, newPoints, newName, retro))
  {
    var rename := newName.Some? && newName.value != "";
    var repoint := newPoints.Some? && newPoints.value != 0;
    if rename && repoint {
      RenameRepointKeepsConsistent(t, guild, kind, newName.value, newPoints.value, retro);
    } else if rename {
      RenameKeepsConsistent(t, guild, kind, newName.value);
    } else if repoint {
      RepointKeepsConsistent(t, guild, kind, newPoints.value, retro);
    }
  }

  /** Deleting a warn type just created gives back both tables: a fresh
      name has no warnings yet. */
  lemma DeleteUndoesNew(t: Tables, k: WarnType)
    requires Referenced(t) && k.name !in TypeNames(t.types, k.guild)
    ensures Filter(t.types + [k], TypeIs(k.guild, k.name)) == t.types
    ensures Filter(t.warns, KindIs(k.guild, k.name)) == t.warns
  {
    forall i | 0 <= i < |t.types|
      ensures !TypeIs(k.guild, k.name)(t.types[i])
    {
      assert t.types[i] in t.types;
    }
    FilterSnocDropped(t.types, k, TypeIs(k.guild, k.name));
    forall i | 0 <= i < |t.warns|
      ensures !KindIs(k.guild, k.name)(t.warns[i])
    {
      assert t.warns[i] in t.warns;
    }
  }

  // ---------------------------------------------------------------------------
  // The tables

  /** The outcome of `warntype edit` that passed its checks. */
  datatype EditReply = Refused(why: Refusal) | NothingToModify | Edited

  /** `points_override or type_map[warn_type]`. */
  function CallFor(types: seq<WarnType>, guild: nat, moderator: nat, kind: string, override: Option<int>,
                   comment: Option<string>): WarnCall
    requires kind in TypeNames(types, guild)
  {
    WarnCall(guild, moderator, kind, if override.Some? then override.value else PointsOf(types, guild, kind).value, comment)
  }

  class WarnTables {
    var types: seq<WarnType>
    var warns: seq<Warn>
    const settings: map<nat, Settings>

    ghost predicate Valid()
      reads this
    {
      Consistent(Tables(types, warns))
    }

    function SettingsOf(guild: nat): Option<Settings>
    {
      if guild in settings then Some(settings[guild]) else None
    }

    constructor (settings: map<nat, Settings>)
      ensures Valid() && types == [] && warns == [] && this.settings == settings
    {
      types := [];
      warns := [];
      this.settings := settings;
    }

    /** `warn`: the checks, then the target loop. */
    method WarnMembers(guild: nat, moderator: nat, targets: seq<Member>, kind: string, override: Option<int>,
                       comment: Option<string>, ids: seq<string>) returns (r: Result<seq<TargetReport>, Refusal>)
      requires Valid() && |ids| == |targets|
      modifies this`warns
      ensures Valid()
      ensures var e := CheckWarn(targets, kind, override, comment, TypeNames(types, guild));
        && (e.Some? ==> r == Err(e.value) && warns == old(warns))
        && (e.None? ==>
              var p := Process(old(warns), CallFor(types, guild, moderator, kind, override, comment), SettingsOf(guild), targets, ids);
              r == Ok(p.reports) && warns == p.warns)
    {
      var e := CheckWarn(targets, kind, override, comment, TypeNames(types, guild));
      if e.Some? {
        return Err(e.value);
      }
      var c := CallFor(types, guild, moderator, kind, override, comment);
      ProcessKeepsConsistent(Tables(types, warns), c, SettingsOf(guild), targets, ids);
      var reports := RunTargets(c, SettingsOf(guild), targets, ids);
      r := Ok(reports);
    }

    /** The target loop: skip bots, write a row, judge, stop at a ban. */
    method RunTargets(c: WarnCall, s: Option<Settings>, targets: seq<Member>, ids: seq<string>) returns (reports: seq<TargetReport>)
      requires |ids| == |targets|
      modifies this`warns
      ensures Processed(warns, reports) == Process(old(warns), c, s, targets, ids)
    {
      ghost var goal := Process(warns, c, s, targets, ids);
      reports := [];
      var i := 0;
      while i < |targets|
        invariant 0 <= i <= |targets|
        invariant goal == Then(reports, Process(warns, c, s, targets[i..], ids[i..]))
      {
        var report, stop := Visit(c, s, targets, ids, i);
        if stop {
          reports := reports + [report];
          return;
        }
        ThenThen(reports, [report], Process(warns, c, s, targets[i + 1..], ids[i + 1..]));
        reports := reports + [report];
        i := i + 1;
      }
      assert targets[i..] == [] && ids[i..] == [];
    }

    /** One pass of the target loop: a bot is skipped; anyone else gets a row
        and is judged, and a ban stops the loop. */
    method Visit(c: WarnCall, s: Option<Settings>, targets: seq<Member>, ids: seq<string>, i: nat)
      returns (report: TargetReport, stop: bool)
      requires |ids| == |targets| && i < |targets|
      modifies this`warns
      ensures stop ==> Process(old(warns), c, s, targets[i..], ids[i..]) == Processed(warns, [report])
      ensures !stop ==> Process(old(warns), c, s, targets[i..], ids[i..])
                        == Then([report], Process(warns, c, s, targets[i + 1..], ids[i + 1..]))
    {
      var t := targets[i];
      assert targets[i..][0] == t && targets[i..][1..] == targets[i + 1..];
      assert ids[i..][0] == ids[i] && ids[i..][1..] == ids[i + 1..];
      if t.isBot {
        return Skipped(t.id), false;
      }
      warns := warns + [Warn(ids[i], c.guild, t.id, c.moderator, c.kind, c.points, c.comment)];
      var verdict := Judge(warns, c.guild, t.id, c.kind, s);
      report, stop := Judged(t.id, verdict), !verdict.Kept?;
    }

    /** `warn remove`: deletes the warning of that id, in any guild. */
    method Remove(id: string) returns (r: Result<nat, Refusal>)
      requires Valid()
      modifies this`warns
      ensures Valid()
      ensures warns == Filter(old(warns), HasId(id))
      ensures r.Err? <==> forall i :: 0 <= i < |old(warns)| ==> old(warns)[i].id != id
      ensures r.Err? ==> r.error == NoSuchWarn
      ensures r.Ok? ==> r.value == |old(warns)| - |warns| > 0
    {
      var before := |warns|;
      warns := Filter(warns, HasId(id));
      if before == |warns| {
        return Err(NoSuchWarn);
      }
      r := Ok(before - |warns|);
    }

    /** `warn reset`: deletes all of a member's warnings in the guild. */
    method Reset(guild: nat, user: nat) returns (r: Result<nat, Refusal>)
      requires Valid()
      modifies this`warns
      ensures Valid()
      ensures warns == Filter(old(warns), UserIs(guild, user))
      ensures r.Err? <==> OfMember(old(warns), guild, user) == []
      ensures r.Err? ==> r.error == NoWarns
      ensures r.Ok? ==> r.value == |old(warns)| - |warns| > 0
    {
      var before := |warns|;
      warns := Filter(warns, UserIs(guild, user));
      if before == |warns| {
        NoneOfMember(old(warns), guild, user);
        return Err(NoWarns);
      }
      r := Ok(before - |warns|);
    }

    /** `warntype new`: the checks, then a new row. */
    method NewType(guild: nat, name: string, points: int) returns (refusal: Option<Refusal>)
      requires Valid()
      modifies this`types
      ensures Valid()
      ensures refusal == CheckNew(TypeNames(old(types), guild), name, points)
      ensures refusal.Some? ==> types == old(types)
      ensures refusal.None? ==> types == old(types) + [WarnType(guild, name, points)]
      ensures refusal.None? ==> PointsOf(types, guild, name) == Some(points)
    {
      refusal := CheckNew(TypeNames(types, guild), name, points);
      if refusal.None? {
        AddKeepsConsistent(Tables(types, warns), WarnType(guild, name, points));
        types := types + [WarnType(guild, name, points)];
      }
    }

    /** `warntype edit`: the checks, then the update of the branch the
        supplied fields choose, with the corrected edit of both fields
        (the as-written one would break `Valid()`; see `EditAsWritten`). */
    method EditType(guild: nat, kind: string, newPoints: Option<int>, newName: Option<string>) returns (reply: EditReply)
      requires Valid()
      modifies this`types, this`warns
      ensures Valid()
      ensures var e := CheckEdit(TypeNames(old(types), guild), kind, newPoints, newName);
        && (e.Some? ==> reply == Refused(e.value) && types == old(types) && warns == old(warns))
        && (e.None? ==>
              && Tables(types, warns) == Edit(Tables(old(types), old(warns)), guild, kind, newPoints, newName, RetroUpdates(SettingsOf(guild)))
              && (reply == NothingToModify <==> newPoints.None? && newName.None?))
    {
      var e := CheckEdit(TypeNames(types, guild), kind, newPoints, newName);
      if e.Some? {
        return Refused(e.value);
      }
      reply := if newPoints.None? && newName.None? then NothingToModify else Edited;
      var retro := RetroUpdates(SettingsOf(guild));
      EditKeepsConsistent(Tables(types, warns), guild, kind, newPoints, newName, retro);
      var rename := newName.Some? && newName.value != "";
      var repoint := newPoints.Some? && newPoints.value != 0;
      if rename {
        types := RenameRows(types, guild, kind, newName.value);
        warns := UpdateWhere(warns, KindIs(guild, kind), SetKind(newName.value));
      }
      if repoint {
        var name := if rename then newName.value else kind;
        if retro {
          warns := UpdateWhere(warns, KindAtPoints(guild, name, PointsOf(types, guild, name)), SetPoints(newPoints.value));
        }
        types := RepointRows(types, guild, name, newPoints.value);
      }
    }

    /** `warntype delete`: the type row goes, and with it, when there was
        one, every warning of that type in the guild. */
    method DeleteType(guild: nat, name: string) returns (refusal: Option<Refusal>)
      requires Valid()
      modifies this`types, this`warns
      ensures Valid()
      ensures refusal == Some(BadIdentifier) <==> Text.HasNonLowercase(name)
      ensures refusal.None? <==> !Text.HasNonLowercase(name) && name in TypeNames(old(types), guild)
      ensures !Text.HasNonLowercase(name) && name !in TypeNames(old(types), guild) ==> refusal == Some(NoSuchType)
      ensures refusal.Some? ==> types == old(types) && warns == old(warns)
      ensures refusal.None? ==>
        types == Filter(old(types), TypeIs(guild, name)) && warns == Filter(old(warns), KindIs(guild, name))
      ensures name !in TypeNames(types, guild)
    {
      if Text.HasNonLowercase(name) {
        refusal := Some(BadIdentifier);
        return;
      }
      var before := |types|;
      DeleteKeepsConsistent(Tables(types, warns), guild, name);
      types := Filter(types, TypeIs(guild, name));
      if before == |types| {
        refusal := Some(NoSuchType);
        return;
      }
      refusal := None;
      warns := Filter(warns, KindIs(guild, name));
    }
  }
}
