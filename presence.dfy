/** The bot's rotating presence.

    A presence setter holds a name template, an activity type and a queue of
    four status messages. Once a minute (`set`) it publishes an activity whose
    name is the template filled with the message at the front of the queue
    and the bot's version, then moves that message to the back. Publishing is
    not performed: `Set` returns the activity it would publish. */
module Presence {
  import opened Wrappers

  // ---------------------------------------------------------------------------
  // `str.format` with keyword fields

  /** How `str.format` fails: a field that names no keyword argument
      (`KeyError`), or an unmatched brace (`ValueError`). */
  datatype FormatError = MissingField(name: string) | Malformed

  function Prefixed(p: string, r: Result<string, FormatError>): (r': Result<string, FormatError>)
    ensures r'.Ok? <==> r.Ok?
    ensures r.Err? ==> r' == r
  {
    match r
    case Ok(s) => Ok(p + s)
    case Err(e) => Err(e)
  }

  /** The index of the first `c` in `s`, if any. */
  function IndexOf(s: string, c: char): (k: Option<nat>)
    ensures k.Some? ==> k.value < |s| && s[k.value] == c && c !in s[..k.value]
    ensures k.None? ==> c !in s
  {
    if s == [] then None
    else if s[0] == c then Some(0)
    else
      var rest := IndexOf(s[1..], c);
      if rest.None? then None
      else
        assert s[..rest.value + 1] == [s[0]] + s[1..][..rest.value];
        Some(rest.value + 1)
  }

  /** `template.format(**fields)`: `{{` and `}}` stand for single braces, and
      `{name}` for the value of the keyword argument `name`; the template is
      read from left to right and the first problem met is the error. */
  function Format(t: string, fields: map<string, string>): Result<string, FormatError>
    decreases |t|
  {
    if t == [] then Ok("")
    else if t[0] == '{' then
      if |t| >= 2 && t[1] == '{' then Prefixed("{", Format(t[2..], fields))
      else
        match IndexOf(t[1..], '}')
        case None => Err(Malformed)
        case Some(j) =>
          var name := t[1..j + 1];
          if '{' in name then Err(Malformed)
          else if name !in fields then Err(MissingField(name))
          else Prefixed(fields[name], Format(t[j + 2..], fields))
    else if t[0] == '}' then
      if |t| >= 2 && t[1] == '}' then Prefixed("}", Format(t[2..], fields)) else Err(Malformed)
    else Prefixed([t[0]], Format(t[1..], fields))
  }

  predicate Plain(s: string)
  {
    '{' !in s && '}' !in s
  }

  /** Text without braces comes out of `format` unchanged, followed by
      whatever the rest of the template gives. */
  lemma {:induction false} FormatPlainPrefix(a: string, b: string, fields: map<string, string>)
    requires Plain(a)
    ensures Format(a + b, fields) == Prefixed(a, Format(b, fields))
  {
    if a == [] {
      assert a + b == b;
      match Format(b, fields)
      case Ok(s) => assert [] + s == s;
      case Err(_) =>
    } else {
      assert (a + b)[0] == a[0] && (a + b)[1..] == a[1..] + b;
      FormatPlainPrefix(a[1..], b, fields);
      match Format(b, fields)
      case Ok(s) => assert [a[0]] + (a[1..] + s) == a + s;
      case Err(_) =>
    }
  }

  /** So a template without braces formats to itself, whatever the fields. */
  lemma FormatPlain(a: string, fields: map<string, string>)
    requires Plain(a)
    ensures Format(a, fields) == Ok(a)
  {
    FormatPlainPrefix(a, "", fields);
    assert a + "" == a;
  }

  /** A `{name}` field is replaced by its value. */
  lemma FormatField(name: string, rest: string, fields: map<string, string>)
    requires Plain(name) && name in fields
    ensures Format("{" + name + "}" + rest, fields) == Prefixed(fields[name], Format(rest, fields))
  {
    var t := "{" + name + "}" + rest;
    assert t[0] == '{' && t[1..] == name + "}" + rest;
    assert |t| >= 2 ==> t[1] != '{' by {
      if |name| > 0 {
        assert t[1] == name[0];
      }
    }
    var j := IndexOf(t[1..], '}');
    assert (name + "}" + rest)[|name|] == '}';
    assert (name + "}" + rest)[..|name|] == name;
    assert t[1..|name| + 1] == name;
    assert t[|name| + 2..] == rest;
  }

  // ---------------------------------------------------------------------------
  // Activity types

  /** `hikari.ActivityType`, an integer enumeration. */
  datatype ActivityType = Playing | Streaming | Listening | Watching | Custom | Competing

  /** The attribute names of the enumeration's members. */
  function MemberName(k: ActivityType): string
  {
    match k
    case Playing => "PLAYING"
    case Streaming => "STREAMING"
    case Listening => "LISTENING"
    case Watching => "WATCHING"
    case Custom => "CUSTOM"
    case Competing => "COMPETING"
  }

  /** `ACTIVITY_TYPES`. */
  const ActivityTypes := [Watching, Playing, Listening, Streaming]

  /** What the `_type` field can hold: the initial string, or an enumeration
      member accepted by the setter. */
  datatype TypeValue = Named(name: string) | Member(kind: ActivityType)

  /** `getattr(ActivityType, name, None)` over the members' names. */
  function Attribute(name: string): (k: Option<ActivityType>)
    ensures k.Some? ==> MemberName(k.value) == name
    ensures k.None? ==> forall m: ActivityType :: MemberName(m) != name
  {
    if name == "PLAYING" then Some(Playing)
    else if name == "STREAMING" then Some(Streaming)
    else if name == "LISTENING" then Some(Listening)
    else if name == "WATCHING" then Some(Watching)
    else if name == "CUSTOM" then Some(Custom)
    else if name == "COMPETING" then Some(Competing)
    else None
  }

  /** The `type` getter as written: `getattr(ActivityType, self._type,
      ActivityType.WATCHING)`. An attribute name must be a string, so once the
      setter has stored an enumeration member the call raises `TypeError`. */
  function TypeAsWritten(v: TypeValue): Result<ActivityType, string>
  {
    match v
    case Named(s) => Ok(if Attribute(s).Some? then Attribute(s).value else Watching)
    case Member(_) => Err("TypeError: attribute name must be string")
  }

  /** The `type` getter as evidently intended: the member the setter stored,
      or the member a stored string names, falling back to `WATCHING`. */
  function TypeOf(v: TypeValue): (k: ActivityType)
    ensures v.Named? ==> TypeAsWritten(v) == Ok(k)
  {
    match v
    case Named(s) => if Attribute(s).Some? then Attribute(s).value else Watching
    case Member(m) => m
  }

  /** The setter's test `value not in ACTIVITY_TYPES`: a string never equals an
      enumeration member, so only the four listed members pass. */
  predicate Accepted(v: TypeValue)
  {
    v.Member? && v.kind in ActivityTypes
  }

  // ---------------------------------------------------------------------------
  // The message queue

  /** `deque.rotate(-1)`: the front moves to the back. */
  function RotateLeft(s: seq<string>): (r: seq<string>)
    ensures |r| == |s|
    ensures |s| > 0 ==> r[|r| - 1] == s[0] && r[..|r| - 1] == s[1..]
  {
    if s == [] then [] else s[1..] + [s[0]]
  }

  /** `k` rotations in a row. */
  function Rotated(s: seq<string>, k: nat): seq<string>
  {
    if k == 0 then s else RotateLeft(Rotated(s, k - 1))
  }

  /** `k` rotations (no more than the length) move the first `k` messages,
      in order, behind the others. */
  lemma {:induction false} RotatedSplit(s: seq<string>, k: nat)
    requires k <= |s|
    ensures Rotated(s, k) == s[k..] + s[..k]
  {
    if k > 0 {
      RotatedSplit(s, k - 1);
      var r := s[k - 1..] + s[..k - 1];
      assert r[0] == s[k - 1];
      assert r[1..] == s[k..] + s[..k - 1];
      assert s[..k] == s[..k - 1] + [s[k - 1]];
    }
  }

  /** As many rotations as there are messages restore the queue. */
  lemma FullTurn(s: seq<string>)
    ensures Rotated(s, |s|) == s
  {
    RotatedSplit(s, |s|);
    assert s[|s|..] + s[..|s|] == s;
  }

  // ---------------------------------------------------------------------------
  // The setter

  /** `"@Blue Brain help • {message} • Version {version}"`, piece by piece. */
  const InitialTemplate := HelpText + "{message}" + VersionText + "{version}"
  const HelpText := "@Blue Brain help • "
  const VersionText := " • Version "

  const InitialMessages := [
    "Invite Blue Brain to your server by using @Blue Brain invite",
    "To view information about Blue Brain, use @Solaris botinfo",
    "Need help with Blue Brain? Join the support server! Use @Blue Brain support to get an invite",
    "Developed by Yuito | 碧 唯翔#8637, and available under the GPLv3 license"
  ]

  /** What `update_presence` is asked to show. */
  datatype Activity = Activity(name: string, kind: ActivityType)

  /** Why `set` ends before publishing: the `name` getter's `format` failed,
      or the `type` getter raised `TypeError`. */
  datatype SetError = NameFailed(error: FormatError) | TypeFailed

  /** The `name` property: the front message formatted with `bot=`, then the
      template formatted with that message and the version. */
  function NameOf(template: string, front: string, bot: string, version: string): Result<string, FormatError>
  {
    match Format(front, map["bot" := bot])
    case Err(e) => Err(e)
    case Ok(message) => Format(template, map["message" := message, "version" := version])
  }

  /** With the initial template and a message without braces, the name is the
      help prompt, the message and the version. */
  lemma InitialName(front: string, bot: string, version: string)
    requires Plain(front)
    ensures NameOf(InitialTemplate, front, bot, version) == Ok(HelpText + front + VersionText + version)
  {
    FormatPlain(front, map["bot" := bot]);
    FormatInitial(front, version);
  }

  /** The initial template, formatted with a message and a version. */
  lemma FormatInitial(message: string, version: string)
    ensures Format(InitialTemplate, map["message" := message, "version" := version])
         == Ok(HelpText + message + VersionText + version)
  {
    var fields := map["message" := message, "version" := version];
    var m, v := "{" + "message" + "}", "{" + "version" + "}" + "";
    TemplateParts();
    FormatPlainPrefix(HelpText, m + (VersionText + v), fields);
    FormatField("message", VersionText + v, fields);
    FormatPlainPrefix(VersionText, v, fields);
    FormatField("version", "", fields);
    Regroup(HelpText, message, VersionText, version);
  }

  /** The initial template is two plain texts, each followed by a field. */
  lemma TemplateParts()
    ensures Plain(HelpText) && Plain(VersionText)
    ensures InitialTemplate == HelpText + ("{" + "message" + "}" + (VersionText + ("{" + "version" + "}" + "")))
  {
    assert "{message}" == "{" + "message" + "}" && "{version}" == "{" + "version" + "}" + "";
  }

  lemma Regroup(a: string, b: string, c: string, d: string)
    ensures a + (b + (c + (d + ""))) == a + b + c + d
  {
    assert d + "" == d;
  }

  class PresenceSetter {
    const bot: string
    const version: string
    var template: string
    var kind: TypeValue
    var messages: seq<string>

    ghost predicate Valid()
      reads this
    {
      |messages| == |InitialMessages|
    }

    constructor (bot: string, version: string)
      ensures Valid() && this.bot == bot && this.version == version
      ensures template == InitialTemplate && kind == Named("watching") && messages == InitialMessages
    {
      this.bot := bot;
      this.version := version;
      template := InitialTemplate;
      kind := Named("watching");
      messages := InitialMessages;
    }

    /** The `name` getter. */
    function Name(): Result<string, FormatError>
      reads this
      requires Valid()
    {
      NameOf(template, messages[0], bot, version)
    }

    /** The `name` setter replaces the template and nothing else. */
    method SetName(value: string)
      modifies this`template
      ensures template == value
    {
      template := value;
    }

    /** The `type` getter as written, which raises once the setter has
        stored a member. */
    function Type(): Result<ActivityType, string>
      reads this
    {
      TypeAsWritten(kind)
    }

    /** The `type` getter as evidently intended. */
    function IntendedType(): ActivityType
      reads this
    {
      TypeOf(kind)
    }

    /** The `type` setter: a value outside `ACTIVITY_TYPES` is refused and the
        stored type stays as it was. An accepted member breaks the getter as
        written, while the intended getter returns it. */
    method SetType(value: TypeValue) returns (accepted: bool)
      modifies this`kind
      ensures accepted <==> Accepted(value)
      ensures kind == if accepted then value else old(kind)
      ensures accepted ==> Type().Err? && IntendedType() == value.kind
    {
      if !(value.Member? && value.kind in ActivityTypes) {
        return false;
      }
      kind := value;
      return true;
    }

    /** `set` as written: the activity's `name`, then its `type`, are read
        before `update_presence`; the first of them that raises ends the call,
        and the queue rotates only after a publication. */
    method Set() returns (result: Result<Activity, SetError>)
      requires Valid()
      modifies this`messages
      ensures Valid()
      ensures result.Ok? <==> old(Name()).Ok? && old(Type()).Ok?
      ensures old(Name()).Err? ==> result == Err(NameFailed(old(Name()).error))
      ensures old(Name()).Ok? && old(Type()).Err? ==> result == Err(TypeFailed)
      ensures result.Ok? ==> result.value == Activity(old(Name()).value, old(Type()).value)
      ensures messages == if result.Ok? then RotateLeft(old(messages)) else old(messages)
    {
      var name := NameOf(template, messages[0], bot, version);
      if name.Err? {
        return Err(NameFailed(name.error));
      }
      var kindNow := TypeAsWritten(kind);
      if kindNow.Err? {
        return Err(TypeFailed);
      }
      result := Ok(Activity(name.value, kindNow.value));
      messages := messages[1..] + [messages[0]];
    }

    /** `set` with the intended `type` getter: only a name that cannot be
        formatted stops the publication and the rotation. */
    method SetIntended() returns (result: Result<Activity, FormatError>)
      requires Valid()
      modifies this`messages
      ensures Valid()
      ensures result.Ok? <==> old(Name()).Ok?
      ensures result.Ok? ==> result.value == Activity(old(Name()).value, IntendedType())
      ensures messages == if result.Ok? then RotateLeft(old(messages)) else old(messages)
    {
      var name := NameOf(template, messages[0], bot, version);
      if name.Err? {
        return Err(name.error);
      }
      result := Ok(Activity(name.value, TypeOf(kind)));
      messages := messages[1..] + [messages[0]];
    }
  }

  /** Found in the `type` getter: after any accepted assignment, reading the
      type as written raises, while the intended getter returns the assigned
      member. Reading it before any assignment gives `WATCHING`, because no
      member is named `watching`. */
  lemma AcceptedTypeBreaksGetter(k: ActivityType)
    requires k in ActivityTypes
    ensures Accepted(Member(k))
    ensures TypeAsWritten(Member(k)).Err?
    ensures TypeOf(Member(k)) == k
    ensures TypeAsWritten(Named("watching")) == Ok(Watching)
  {
    assert Attribute("watching").None?;
  }

  /** The four initial messages come round again after four `set` calls, each
      having been at the front once, in order. */
  lemma FourSetsRestoreQueue()
    ensures Rotated(InitialMessages, 4) == InitialMessages
    ensures forall k :: 0 <= k < 4 ==> Rotated(InitialMessages, k)[0] == InitialMessages[k]
  {
    FullTurn(InitialMessages);
    forall k | 0 <= k < 4
      ensures Rotated(InitialMessages, k)[0] == InitialMessages[k]
    {
      RotatedSplit(InitialMessages, k);
    }
  }
}
