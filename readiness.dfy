/** The startup readiness tracker: whether the bot has booted and synced, and
    which of its extensions have reported in.

    The source keeps one attribute per extension on the tracker object; here
    those attributes are the map `flags` from extension name to readiness.
    `booted` and `synced` are plain fields that the bot sets directly. */
module Readiness {
  import Text

  /** `str.lower()` restricted to ASCII: `A`..`Z` become `a`..`z`. */
  function ToLower(s: string): (r: string)
    ensures |r| == |s|
    ensures forall i :: 0 <= i < |s| ==>
      r[i] == if 'A' <= s[i] <= 'Z' then (s[i] as int + 32) as char else s[i]
  {
    if s == [] then []
    else [if 'A' <= s[0] <= 'Z' then (s[0] as int + 32) as char else s[0]] + ToLower(s[1..])
  }

  /** `all(getattr(self, e) for e in extensions)`; a name without a flag
      counts as not ready (the constructor gives every listed name a flag). */
  function AllReady(extensions: seq<string>, flags: map<string, bool>): (b: bool)
    ensures b <==> forall i :: 0 <= i < |extensions| ==> extensions[i] in flags && flags[extensions[i]]
  {
    if extensions == [] then true
    else
      var rest := AllReady(extensions[1..], flags);
      assert forall i :: 1 <= i < |extensions| ==> extensions[i] == extensions[1..][i - 1];
      (extensions[0] in flags && flags[extensions[0]]) && rest
  }

  /** `[e for e in extensions if getattr(self, e)]`. */
  function Initialised(extensions: seq<string>, flags: map<string, bool>): (r: seq<string>)
    ensures |r| <= |extensions|
    ensures forall x :: x in r ==> x in extensions && x in flags && flags[x]
    ensures forall i :: 0 <= i < |extensions| && extensions[i] in flags && flags[extensions[i]] ==> extensions[i] in r
  {
    if extensions == [] then []
    else
      var rest := Initialised(extensions[1..], flags);
      assert forall i :: 1 <= i < |extensions| ==> extensions[i] == extensions[1..][i - 1];
      if extensions[0] in flags && flags[extensions[0]] then [extensions[0]] + rest else rest
  }

  /** Whether the `i`-th listed extension has reported in. */
  predicate ReadyAt(extensions: seq<string>, flags: map<string, bool>, i: nat)
    requires i < |extensions|
  {
    extensions[i] in flags && flags[extensions[i]]
  }

  /** The positions, among the first `n`, of the listed extensions that are ready. */
  ghost function ReadySet(extensions: seq<string>, flags: map<string, bool>, n: nat): set<nat>
    requires n <= |extensions|
  {
    set i: nat | i < n && ReadyAt(extensions, flags, i)
  }

  /** The ready positions among the first `n`, in increasing order. */
  ghost function ReadyPositions(extensions: seq<string>, flags: map<string, bool>, n: nat): seq<nat>
    requires n <= |extensions|
  {
    if n == 0 then []
    else ReadyPositions(extensions, flags, n - 1) + (if ReadyAt(extensions, flags, n - 1) then [n - 1] else [])
  }

  /** The ready positions are increasing, below `n`, and exactly the ready ones. */
  lemma {:induction false} ReadyPositionsSorted(extensions: seq<string>, flags: map<string, bool>, n: nat)
    requires n <= |extensions|
    ensures var idx := ReadyPositions(extensions, flags, n);
      && (forall j :: 0 <= j < |idx| ==> idx[j] < n)
      && (forall j, k :: 0 <= j < k < |idx| ==> idx[j] < idx[k])
      && (forall i :: 0 <= i < n ==> (ReadyAt(extensions, flags, i) <==> i in idx))
  {
    if n > 0 {
      ReadyPositionsSorted(extensions, flags, n - 1);
      var rest := ReadyPositions(extensions, flags, n - 1);
      var tail := if ReadyAt(extensions, flags, n - 1) then [n - 1] else [];
      assert ReadyPositions(extensions, flags, n) == rest + tail;
      assert forall i :: i in rest + tail <==> i in rest || i in tail;
    }
  }

  /** There are as many ready positions as the set of them holds. */
  lemma {:induction false} ReadyPositionsCount(extensions: seq<string>, flags: map<string, bool>, n: nat)
    requires n <= |extensions|
    ensures |ReadyPositions(extensions, flags, n)| == |ReadySet(extensions, flags, n)|
  {
    if n == 0 {
      assert ReadySet(extensions, flags, n) == {};
    } else {
      ReadyPositionsCount(extensions, flags, n - 1);
      ReadySetStep(extensions, flags, n);
      var tail := if ReadyAt(extensions, flags, n - 1) then [n - 1] else [];
      assert ReadyPositions(extensions, flags, n) == ReadyPositions(extensions, flags, n - 1) + tail;
    }
  }

  /** Looking at one more position adds it to the set exactly when it is ready. */
  lemma ReadySetStep(extensions: seq<string>, flags: map<string, bool>, n: nat)
    requires 0 < n <= |extensions|
    ensures |ReadySet(extensions, flags, n)| == |ReadySet(extensions, flags, n - 1)| + if ReadyAt(extensions, flags, n - 1) then 1 else 0
  {
    var before, after := ReadySet(extensions, flags, n - 1), ReadySet(extensions, flags, n);
    if ReadyAt(extensions, flags, n - 1) {
      assert after == before + {n - 1} by {
        forall i | i in after
          ensures i in before + {n - 1}
        {
          if i < n - 1 {
            assert i in before;
          }
        }
      }
      assert n - 1 !in before;
    } else {
      assert after == before by {
        forall i | i in after
          ensures i in before
        {
          assert i < n - 1;
        }
      }
    }
  }

  /** The comprehension distributes over concatenation. */
  lemma {:induction false} InitialisedAppend(a: seq<string>, b: seq<string>, flags: map<string, bool>)
    ensures Initialised(a + b, flags) == Initialised(a, flags) + Initialised(b, flags)
  {
    if a == [] {
      assert a + b == b;
    } else {
      assert (a + b)[0] == a[0] && (a + b)[1..] == a[1..] + b;
      InitialisedAppend(a[1..], b, flags);
      var head := if a[0] in flags && flags[a[0]] then [a[0]] else [];
      assert Initialised(a + b, flags) == head + Initialised(a[1..] + b, flags);
      assert Initialised(a, flags) == head + Initialised(a[1..], flags);
    }
  }

  lemma {:induction false} InitialisedPrefix(extensions: seq<string>, flags: map<string, bool>, n: nat)
    requires n <= |extensions|
    ensures var r := Initialised(extensions[..n], flags);
      var idx := ReadyPositions(extensions, flags, n);
      |r| == |idx| && forall j :: 0 <= j < |r| ==> idx[j] < n && r[j] == extensions[idx[j]]
  {
    ReadyPositionsSorted(extensions, flags, n);
    if n > 0 {
      InitialisedPrefix(extensions, flags, n - 1);
      var r0, idx0 := Initialised(extensions[..n - 1], flags), ReadyPositions(extensions, flags, n - 1);
      var x := extensions[n - 1];
      assert extensions[..n] == extensions[..n - 1] + [x];
      InitialisedAppend(extensions[..n - 1], [x], flags);
      assert [x][1..] == [];
      var single := if ReadyAt(extensions, flags, n - 1) then [x] else [];
      assert Initialised([x], flags) == single;
      assert Initialised(extensions[..n], flags) == r0 + single;
    }
  }

  /** `initialised_extensions` is the in-order subsequence of the listed
      extensions that are ready: its `j`-th entry is the extension at the
      `j`-th ready position, and those positions are increasing and are
      exactly the ready ones. */
  lemma InitialisedInOrder(extensions: seq<string>, flags: map<string, bool>)
    ensures var r := Initialised(extensions, flags);
      var idx := ReadyPositions(extensions, flags, |extensions|);
      && |r| == |idx|
      && (forall j :: 0 <= j < |r| ==> idx[j] < |extensions| && r[j] == extensions[idx[j]])
      && (forall j, k :: 0 <= j < k < |idx| ==> idx[j] < idx[k])
      && (forall i :: 0 <= i < |extensions| ==> (ReadyAt(extensions, flags, i) <==> i in idx))
  {
    InitialisedPrefix(extensions, flags, |extensions|);
    ReadyPositionsSorted(extensions, flags, |extensions|);
    assert extensions[..|extensions|] == extensions;
  }

  /** Every extension is initialised exactly when the list of initialised
      extensions is the whole list, so `int(ready)` reaches its maximum
      exactly when the extension part of `ok` holds. */
  lemma {:induction false} InitialisedAll(extensions: seq<string>, flags: map<string, bool>)
    ensures Initialised(extensions, flags) == extensions <==> AllReady(extensions, flags)
    ensures |Initialised(extensions, flags)| == |extensions| <==> AllReady(extensions, flags)
  {
    if extensions != [] {
      InitialisedAll(extensions[1..], flags);
    }
  }

  /** A flag for a name outside the extension list changes neither query. */
  lemma {:induction false} ForeignFlagIgnored(extensions: seq<string>, flags: map<string, bool>, key: string, value: bool)
    requires key !in extensions
    ensures Initialised(extensions, flags[key := value]) == Initialised(extensions, flags)
    ensures AllReady(extensions, flags[key := value]) == AllReady(extensions, flags)
  {
    if extensions != [] {
      ForeignFlagIgnored(extensions[1..], flags, key, value);
    }
  }

  /** The `__str__` text. */
  function Report(booted: bool, initialised: nat, total: nat): string
  {
    (if booted then "Bot is booted." else "Bot is not booted.")
    + " " + Text.Decimal(initialised) + " of " + Text.Decimal(total) + " extensions initialised."
  }

  /** The report splits into its words: the boot sentence, then the two
      counts in decimal as the fourth (or fifth) and sixth (or seventh) words. */
  lemma ReportReadsBack(booted: bool, initialised: nat, total: nat)
    ensures var words := Text.Split(Report(booted, initialised, total), ' ');
      var k := if booted then 3 else 4;
      && |words| == k + 5
      && words[k - 1] == "booted." && (words[2] == "booted." <==> booted)
      && Text.AllDigits(words[k]) && Text.ParseDecimal(words[k]) == initialised
      && Text.AllDigits(words[k + 2]) && Text.ParseDecimal(words[k + 2]) == total
      && words[k + 3..] == ["extensions", "initialised."]
  {
    var d1, d2 := Text.Decimal(initialised), Text.Decimal(total);
    var parts := ReportWords(booted, d1, d2);
    ReportIsJoin(booted, d1, d2);
    assert Text.AllDigits(d1) && Text.AllDigits(d2);
    WordsWithoutSpace(booted, d1, d2);
    Text.SplitJoin(parts, ' ');
    Text.ParseDecimalOfDecimal(initialised);
    Text.ParseDecimalOfDecimal(total);
  }

  /** Where each word of the report sits. */
  function ReportWords(booted: bool, d1: string, d2: string): (words: seq<string>)
    ensures var k := if booted then 3 else 4;
      && |words| == k + 5
      && words[k - 1] == "booted." && (words[2] == "booted." <==> booted)
      && words[k] == d1 && words[k + 2] == d2
      && words[k + 3..] == ["extensions", "initialised."]
  {
    (if booted then ["Bot", "is", "booted."] else ["Bot", "is", "not", "booted."])
    + [d1, "of", d2, "extensions", "initialised."]
  }

  /** No word of the report holds a space when the counts are digits. */
  lemma WordsWithoutSpace(booted: bool, d1: string, d2: string)
    requires Text.AllDigits(d1) && Text.AllDigits(d2)
    ensures forall i :: 0 <= i < |ReportWords(booted, d1, d2)| ==> ' ' !in ReportWords(booted, d1, d2)[i]
  {
    var parts := ReportWords(booted, d1, d2);
    forall i | 0 <= i < |parts|
      ensures ' ' !in parts[i]
    {
      if parts[i] == d1 || parts[i] == d2 {
        assert Text.AllDigits(parts[i]);
      }
    }
  }

  lemma ReportIsJoin(booted: bool, d1: string, d2: string)
    ensures Text.Join(ReportWords(booted, d1, d2), " ") ==
      (if booted then "Bot is booted." else "Bot is not booted.")
      + " " + d1 + " of " + d2 + " extensions initialised."
  {
    var tail := [d1, "of", d2, "extensions", "initialised."];
    var head := if booted then ["Bot", "is", "booted."] else ["Bot", "is", "not", "booted."];
    CountsJoin(d1, d2);
    SentenceJoin(booted);
    Text.JoinConcat(head, tail, " ");
  }

  /** The words of the second sentence, joined. */
  lemma CountsJoin(d1: string, d2: string)
    ensures Text.Join([d1, "of", d2, "extensions", "initialised."], " ")
         == d1 + " of " + d2 + " extensions initialised."
  {
    var tail := [d1, "of", d2, "extensions", "initialised."];
    assert Text.Join(tail[3..], " ") == "extensions" + " " + "initialised.";
    assert Text.Join(tail[2..], " ") == d2 + " " + Text.Join(tail[3..], " ");
    assert Text.Join(tail[1..], " ") == "of" + " " + Text.Join(tail[2..], " ");
  }

  /** The words of the boot sentence, joined. */
  lemma SentenceJoin(booted: bool)
    ensures Text.Join(if booted then ["Bot", "is", "booted."] else ["Bot", "is", "not", "booted."], " ")
         == if booted then "Bot is booted." else "Bot is not booted."
  {
    var head := if booted then ["Bot", "is", "booted."] else ["Bot", "is", "not", "booted."];
    assert Text.Join(head[|head| - 2..], " ") == head[|head| - 2] + " " + "booted.";
    if !booted {
      assert Text.Join(head[1..], " ") == "is" + " " + Text.Join(head[2..], " ");
    }
  }

  class Ready {
    const extensions: seq<string>
    var booted: bool
    var synced: bool
    var flags: map<string, bool>

    /** Every listed extension has a flag. */
    ghost predicate Valid()
      reads this
    {
      forall i :: 0 <= i < |extensions| ==> extensions[i] in flags
    }

    /** `__init__`: not booted, not synced, every listed extension not ready. */
    constructor (extensions: seq<string>)
      ensures Valid() && this.extensions == extensions
      ensures !booted && !synced
      ensures flags.Keys == set e | e in extensions
      ensures forall e :: e in flags ==> !flags[e]
    {
      this.extensions := extensions;
      booted := false;
      synced := false;
      var f: map<string, bool> := map[];
      for i := 0 to |extensions|
        invariant f.Keys == set e | e in extensions[..i]
        invariant forall e :: e in f ==> !f[e]
      {
        assert extensions[..i + 1] == extensions[..i] + [extensions[i]];
        f := f[extensions[i] := false];
      }
      assert extensions[..|extensions|] == extensions;
      flags := f;
    }

    /** `up`: the flag of the lower-cased extension name becomes true; the
        name need not be one of the listed extensions. */
    method Up(name: string)
      requires Valid()
      modifies this`flags
      ensures Valid()
      ensures flags == old(flags)[ToLower(name) := true]
    {
      flags := flags[ToLower(name) := true];
    }

    /** `ok`. */
    function Ok(): bool
      reads this
    {
      booted && AllReady(extensions, flags)
    }

    /** `initialised_extensions`. */
    function InitialisedExtensions(): seq<string>
      reads this
    {
      Initialised(extensions, flags)
    }

    /** `__int__`. */
    function Count(): (k: nat)
      reads this
      ensures k <= |extensions|
      ensures k == |ReadySet(extensions, flags, |extensions|)|
    {
      InitialisedInOrder(extensions, flags);
      ReadyPositionsCount(extensions, flags, |extensions|);
      |Initialised(extensions, flags)|
    }

    /** `__bool__`. */
    function Truth(): bool
      reads this
    {
      Ok()
    }

    /** `__str__`. */
    function Text(): string
      reads this
    {
      Report(booted, Count(), |extensions|)
    }
  }

  /** `ok` holds exactly when the bot has booted and `int(ready)` equals the
      number of extensions; `bool(ready)` is `ok`. */
  lemma OkIffAllCounted(r: Ready)
    ensures r.Ok() <==> r.booted && r.Count() == |r.extensions|
    ensures r.Truth() == r.Ok()
  {
    InitialisedAll(r.extensions, r.flags);
  }

  /** `up` with a name outside the list, after lower-casing, leaves `ok`,
      `initialised_extensions` and `int(ready)` as they were. */
  lemma UpForeignIgnored(extensions: seq<string>, flags: map<string, bool>, booted: bool, name: string)
    requires ToLower(name) !in extensions
    ensures var after := flags[ToLower(name) := true];
      && Initialised(extensions, after) == Initialised(extensions, flags)
      && (booted && AllReady(extensions, after)) == (booted && AllReady(extensions, flags))
  {
    ForeignFlagIgnored(extensions, flags, ToLower(name), true);
  }
}
