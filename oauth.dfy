/** The bot's OAuth2 invite link.

    `oauth_url` starts from the authorize endpoint and the client id and
    appends one query segment per supplied option, in a fixed order. Options
    default to the `MISSING` sentinel, which is told apart from a supplied value
    by identity (`is not MISSING`); here an option is an `Arg`. The percent
    encoding of the redirect URI by `urlencode` is a function parameter
    (`quote`), of which nothing is assumed. */
module OAuth {
  import Text

  /** An optional argument: the `MISSING` sentinel or a supplied value. The
      builder's `is not MISSING` is `Given?`. */
  datatype Arg<T> = Missing | Given(value: T)

  /** Truth of the `scopes` argument: the sentinel is falsy, and so is an
      empty sequence of scopes. */
  predicate ScopesTruthy(scopes: Arg<seq<string>>)
  {
    scopes.Given? && |scopes.value| > 0
  }

  /** `scopes or ('bot',)`. */
  function ScopesOrBot(scopes: Arg<seq<string>>): (r: seq<string>)
    ensures |r| >= 1
    ensures ScopesTruthy(scopes) ==> r == scopes.value
    ensures r == ["bot"] <==> !ScopesTruthy(scopes) || scopes.value == ["bot"]
  {
    if ScopesTruthy(scopes) then scopes.value else ["bot"]
  }

  const Endpoint := "https://discord.com/oauth2/authorize?"

  /** The query segments, in the order the builder appends them. */
  function Segments(clientId: string, permissions: Arg<nat>, guild: Arg<nat>, redirectUri: Arg<string>,
                    scopes: Arg<seq<string>>, disableGuildSelect: bool, quote: string -> string): (segs: seq<string>)
    ensures |segs| >= 2
  {
    var s0 := [Seg("client_id", clientId), Seg("scope", Text.Join(ScopesOrBot(scopes), "+"))];
    var s1 := if permissions.Given? then s0 + [Seg("permissions", Text.Decimal(permissions.value))] else s0;
    var s2 := if guild.Given? then s1 + [Seg("guild_id", Text.Decimal(guild.value))] else s1;
    var s3 := if redirectUri.Given? then s2 + [Seg("response_type", "code")] + [Seg("redirect_uri", quote(redirectUri.value))] else s2;
    if disableGuildSelect then s3 + [Seg("disable_guild_select", "true")] else s3
  }

  /** The names of the segments that appear, in order: client id and scope
      always, each other name exactly when its option was supplied. */
  function ExpectedKeys(permissions: Arg<nat>, guild: Arg<nat>, redirectUri: Arg<string>, disableGuildSelect: bool): seq<string>
  {
    var k0 := ["client_id", "scope"];
    var k1 := if permissions.Given? then k0 + ["permissions"] else k0;
    var k2 := if guild.Given? then k1 + ["guild_id"] else k1;
    var k3 := if redirectUri.Given? then k2 + ["response_type"] + ["redirect_uri"] else k2;
    if disableGuildSelect then k3 + ["disable_guild_select"] else k3
  }

  /** A query segment `name=value`. */
  function Seg(name: string, value: string): string
  {
    name + "=" + value
  }

  /** The name part of a `name=value` segment. */
  function Key(segment: string): string
  {
    Text.Split(segment, '=')[0]
  }

  function Keys(segs: seq<string>): (keys: seq<string>)
    ensures |keys| == |segs|
  {
    if segs == [] then [] else [Key(segs[0])] + Keys(segs[1..])
  }

  lemma KeysAppend(a: seq<string>, b: seq<string>)
    ensures Keys(a + b) == Keys(a) + Keys(b)
  {
    if a != [] {
      assert (a + b)[1..] == a[1..] + b;
      KeysAppend(a[1..], b);
    } else {
      assert a + b == b;
    }
  }

  /** Splitting `name=value` on `=` yields `name` first. */
  lemma KeyOf(name: string, value: string)
    requires '=' !in name
    ensures Key(Seg(name, value)) == name
  {
    Text.SplitPiece(name, '=', value);
  }

  /** `oauth_url`: the URL is built by appending to `url` step by step. */
  method OAuthUrl(clientId: string, permissions: Arg<nat>, guild: Arg<nat>, redirectUri: Arg<string>,
                  scopes: Arg<seq<string>>, disableGuildSelect: bool, quote: string -> string)
    returns (url: string)
    ensures url == Endpoint + Text.Join(Segments(clientId, permissions, guild, redirectUri, scopes, disableGuildSelect, quote), "&")
  {
    ghost var segs := [Seg("client_id", clientId)];
    url := Endpoint + Seg("client_id", clientId);
    var scope := if ScopesTruthy(scopes) then scopes.value else ["bot"];
    url, segs := Append(url, segs, Seg("scope", Text.Join(scope, "+")));
    assert segs == [Seg("client_id", clientId), Seg("scope", Text.Join(ScopesOrBot(scopes), "+"))];
    if permissions.Given? {
      url, segs := Append(url, segs, Seg("permissions", Text.Decimal(permissions.value)));
    }
    if guild.Given? {
      url, segs := Append(url, segs, Seg("guild_id", Text.Decimal(guild.value)));
    }
    if redirectUri.Given? {
      url, segs := Append(url, segs, Seg("response_type", "code"));
      url, segs := Append(url, segs, Seg("redirect_uri", quote(redirectUri.value)));
    }
    if disableGuildSelect {
      url, segs := Append(url, segs, Seg("disable_guild_select", "true"));
    }
  }

  /** One `url += '&' + segment` step, with the segments it has joined so far. */
  method Append(url: string, ghost segs: seq<string>, segment: string) returns (url': string, ghost segs': seq<string>)
    requires |segs| >= 1 && url == Endpoint + Text.Join(segs, "&")
    ensures segs' == segs + [segment] && url' == Endpoint + Text.Join(segs', "&")
  {
    url' := url + "&" + segment;
    segs' := segs + [segment];
    Text.JoinConcat(segs, [segment], "&");
  }

  /** Read back: splitting the query on `&` gives the segments, and their names
      are client id, scope, then each supplied option's name, in the builder's
      order — so a segment appears exactly when its option was given — and
      each segment carries its option's value: the client id, the scopes
      joined with `+`, the permission and guild numbers in decimal, `code`,
      the encoded redirect URI and `true`. This
      holds when neither the client id, nor a scope, nor the encoded redirect
      URI holds a `&`. */
  lemma QueryReadsBack(clientId: string, permissions: Arg<nat>, guild: Arg<nat>, redirectUri: Arg<string>,
                       scopes: Arg<seq<string>>, disableGuildSelect: bool, quote: string -> string)
    requires '&' !in clientId
    requires scopes.Given? ==> forall i :: 0 <= i < |scopes.value| ==> '&' !in scopes.value[i]
    requires redirectUri.Given? ==> '&' !in quote(redirectUri.value)
    ensures var segs := Segments(clientId, permissions, guild, redirectUri, scopes, disableGuildSelect, quote);
      && Text.Split(Text.Join(segs, "&"), '&') == segs
      && Keys(segs) == ExpectedKeys(permissions, guild, redirectUri, disableGuildSelect)
      && segs[0] == Seg("client_id", clientId)
      && segs[1] == Seg("scope", Text.Join(ScopesOrBot(scopes), "+"))
      && (permissions.Given? ==> Seg("permissions", Text.Decimal(permissions.value)) in segs)
      && (guild.Given? ==> Seg("guild_id", Text.Decimal(guild.value)) in segs)
      && (redirectUri.Given? ==> Seg("response_type", "code") in segs && Seg("redirect_uri", quote(redirectUri.value)) in segs)
      && (disableGuildSelect ==> Seg("disable_guild_select", "true") in segs)
  {
    var segs := Segments(clientId, permissions, guild, redirectUri, scopes, disableGuildSelect, quote);
    SegmentsWithoutAmpersand(clientId, permissions, guild, redirectUri, scopes, disableGuildSelect, quote);
    Text.SplitJoin(segs, '&');
    SegmentKeys(clientId, permissions, guild, redirectUri, scopes, disableGuildSelect, quote);
  }

  lemma SegmentsWithoutAmpersand(clientId: string, permissions: Arg<nat>, guild: Arg<nat>, redirectUri: Arg<string>,
                                 scopes: Arg<seq<string>>, disableGuildSelect: bool, quote: string -> string)
    requires '&' !in clientId
    requires scopes.Given? ==> forall i :: 0 <= i < |scopes.value| ==> '&' !in scopes.value[i]
    requires redirectUri.Given? ==> '&' !in quote(redirectUri.value)
    ensures var segs := Segments(clientId, permissions, guild, redirectUri, scopes, disableGuildSelect, quote);
      forall i :: 0 <= i < |segs| ==> '&' !in segs[i]
  {
    var segs := Segments(clientId, permissions, guild, redirectUri, scopes, disableGuildSelect, quote);
    NoAmpersandInJoin(ScopesOrBot(scopes), "+");
    forall i | 0 <= i < |segs|
      ensures '&' !in segs[i]
    {
      if permissions.Given? {
        assert Text.AllDigits(Text.Decimal(permissions.value));
      }
      if guild.Given? {
        assert Text.AllDigits(Text.Decimal(guild.value));
      }
    }
  }

  lemma SegmentKeys(clientId: string, permissions: Arg<nat>, guild: Arg<nat>, redirectUri: Arg<string>,
                    scopes: Arg<seq<string>>, disableGuildSelect: bool, quote: string -> string)
    ensures Keys(Segments(clientId, permissions, guild, redirectUri, scopes, disableGuildSelect, quote))
         == ExpectedKeys(permissions, guild, redirectUri, disableGuildSelect)
  {
    var s0 := [Seg("client_id", clientId), Seg("scope", Text.Join(ScopesOrBot(scopes), "+"))];
    FrontKeys(clientId, Text.Join(ScopesOrBot(scopes), "+"));
    var s1 := if permissions.Given? then s0 + [Seg("permissions", Text.Decimal(permissions.value))] else s0;
    if permissions.Given? {
      KeysSnoc(s0, "permissions", Text.Decimal(permissions.value));
    }
    var s2 := if guild.Given? then s1 + [Seg("guild_id", Text.Decimal(guild.value))] else s1;
    if guild.Given? {
      KeysSnoc(s1, "guild_id", Text.Decimal(guild.value));
    }
    var s3 := if redirectUri.Given? then s2 + [Seg("response_type", "code")] + [Seg("redirect_uri", quote(redirectUri.value))] else s2;
    if redirectUri.Given? {
      KeysSnoc(s2, "response_type", "code");
      KeysSnoc(s2 + [Seg("response_type", "code")], "redirect_uri", quote(redirectUri.value));
    }
    if disableGuildSelect {
      KeysSnoc(s3, "disable_guild_select", "true");
    }
  }

  /** The two segments every URL starts with. */
  lemma FrontKeys(clientId: string, scope: string)
    ensures Keys([Seg("client_id", clientId), Seg("scope", scope)]) == ["client_id", "scope"]
  {
    var s0 := [Seg("client_id", clientId), Seg("scope", scope)];
    KeyOf("client_id", clientId);
    KeyOf("scope", scope);
    assert s0[1..] == [Seg("scope", scope)];
  }

  /** Appending `name=value` appends `name` to the keys. */
  lemma KeysSnoc(segs: seq<string>, name: string, value: string)
    requires '=' !in name
    ensures Keys(segs + [Seg(name, value)]) == Keys(segs) + [name]
  {
    KeysAppend(segs, [Seg(name, value)]);
    KeyOf(name, value);
  }

  /** Joining pieces without `&` using a separator without `&` gives no `&`. */
  lemma {:induction false} NoAmpersandInJoin(parts: seq<string>, sep: string)
    requires '&' !in sep
    requires forall i :: 0 <= i < |parts| ==> '&' !in parts[i]
    ensures '&' !in Text.Join(parts, sep)
  {
    if |parts| > 1 {
      NoAmpersandInJoin(parts[1..], sep);
    }
  }
}
