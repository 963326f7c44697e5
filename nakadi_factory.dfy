/** The Nakadi plugin factory (`NakadiWrapperFactory`): reading the plugin
    configuration, registering OAuth2 tokens with the token manager, and
    creating clients per invocation context. */
module NakadiFactory {
  import opened Values
  import Strings
  import NakadiClient

  /** One `tokens.manage(name, scopes)` call. */
  datatype Registration = Registration(tokenName: string, scopes: seq<string>)

  /** The identity token every configuration registers last. */
  const Uid := Registration("uid", ["uid"])

  /** The configuration key holding the token declarations,
      `name=scope1,scope2:name2=scope3`. */
  const TokensKey := "oauth2.tokens"

  /** The failure of `configure`: a declaration with no `=`, on which the
      two-element tuple unpacking raises. */
  datatype ConfigError = MalformedTokenPart(part: string)

  datatype Outcome = Pass | Fail(error: ConfigError)

  /** The registrations made while reading the declarations, and whether
      reading ran to the end. */
  datatype Parsed = Parsed(registered: seq<Registration>, outcome: Outcome)

  /** The token manager, which the plugin reaches as the global `tokens`
      module: what it records is the registrations, in order, and whether
      background refreshing has started. */
  class TokenManager {
    var managed: seq<Registration>
    var started: bool

    constructor ()
      ensures managed == [] && !started
    {
      managed := [];
      started := false;
    }

    /** `tokens.manage(tokenName, scopes)`. */
    method Manage(tokenName: string, scopes: seq<string>)
      modifies this
      ensures managed == old(managed) + [Registration(tokenName, scopes)]
      ensures started == old(started)
    {
      managed := managed + [Registration(tokenName, scopes)];
    }

    /** `tokens.start()`. */
    method Start()
      modifies this
      ensures started && managed == old(managed)
    {
      started := true;
    }
  }

  /** One declaration `name=scopes`, read as `configure` reads it. */
  function ParsePart(part: string): (r: Result<Registration, ConfigError>)
    ensures r.Ok? <==> '=' in part
    ensures r.Err? ==> r.error == MalformedTokenPart(part)
  {
    var pieces := Strings.SplitOnce(part, '=');
    if |pieces| == 2 then Ok(Registration(pieces[0], Strings.Split(pieces[1], ',')))
    else Err(MalformedTokenPart(part))
  }

  /** The name is the text before the first `=` and the scopes are the rest
      split at `,`: joined back they give the declaration. */
  lemma ParsePartMeaning(part: string)
    requires '=' in part
    ensures var reg := ParsePart(part).value;
      && '=' !in reg.tokenName
      && |reg.scopes| >= 1
      && reg.tokenName + "=" + Strings.Join(reg.scopes, ',') == part
  {
    var pieces := Strings.SplitOnce(part, '=');
    Strings.JoinSplit(pieces[1], ',');
  }

  /** The loop of `configure` over the declarations: one registration per
      declaration, stopping at the first malformed one. */
  function ParseParts(parts: seq<string>): (p: Parsed)
    ensures |p.registered| <= |parts|
  {
    if |parts| == 0 then Parsed([], Pass)
    else match ParsePart(parts[0])
      case Err(e) => Parsed([], Fail(e))
      case Ok(reg) =>
        var rest := ParseParts(parts[1..]);
        Parsed([reg] + rest.registered, rest.outcome)
  }

  /** What `configure` registers from the configuration before the identity
      token: nothing when the key is absent or empty. */
  function ParseTokenConfiguration(conf: map<string, string>): (p: Parsed)
    ensures Setting(conf, TokensKey) == "" ==> p == Parsed([], Pass)
    ensures Setting(conf, TokensKey) != "" ==>
      var parts := Strings.Split(conf[TokensKey], ':');
      && |p.registered| <= |parts|
      && (p.outcome == Pass <==> forall i :: 0 <= i < |parts| ==> '=' in parts[i])
      && (p.outcome == Pass ==> |p.registered| == |parts|)
      && (p.outcome == Pass ==> forall i :: 0 <= i < |parts| ==> p.registered[i] == ParsePart(parts[i]).value)
  {
    if TokensKey in conf && conf[TokensKey] != "" then
      var parts := Strings.Split(conf[TokensKey], ':');
      ParsePartsPass(parts);
      ParseParts(parts)
    else Parsed([], Pass)
  }

  /** Reading runs to the end exactly when every declaration holds an `=`,
      and then declaration i gives registration i. */
  lemma {:induction false} ParsePartsPass(parts: seq<string>)
    ensures ParseParts(parts).outcome == Pass <==> forall i :: 0 <= i < |parts| ==> '=' in parts[i]
    ensures ParseParts(parts).outcome == Pass ==>
      && |ParseParts(parts).registered| == |parts|
      && forall i :: 0 <= i < |parts| ==> ParseParts(parts).registered[i] == ParsePart(parts[i]).value
  {
    if |parts| > 0 {
      ParsePartsPass(parts[1..]);
      assert forall i :: 1 <= i < |parts| ==> parts[i] == parts[1..][i - 1];
    }
  }

  /** Reading stops at the first declaration without `=`, after registering
      every declaration before it. */
  lemma {:induction false} ParsePartsStops(parts: seq<string>, k: nat)
    requires k < |parts| && '=' !in parts[k]
    requires forall j :: 0 <= j < k ==> '=' in parts[j]
    ensures ParseParts(parts).outcome == Fail(MalformedTokenPart(parts[k]))
    ensures |ParseParts(parts).registered| == k
    ensures forall j :: 0 <= j < k ==> ParseParts(parts).registered[j] == ParsePart(parts[j]).value
  {
    if k > 0 {
      ParsePartsStops(parts[1..], k - 1);
      assert forall j :: 1 <= j < k ==> parts[j] == parts[1..][j - 1];
    }
  }

  /** Python's `conf.get(key, '')`. */
  function Setting(conf: map<string, string>, key: string): (v: string)
    ensures key in conf ==> v == conf[key]
    ensures key !in conf ==> v == ""
    ensures v != "" ==> key in conf
  {
    if key in conf then conf[key] else ""
  }

  /** Python's `a or b` on strings: `a` unless it is empty. */
  function Or(a: string, b: string): (r: string)
    ensures r == a || r == b
    ensures a != "" ==> r == a
    ensures r == "" <==> a == "" && b == ""
  {
    if a != "" then a else b
  }

  /** The loop of `configure` over the `:`-separated declarations: each
      is split at its first `=` and registered; one without `=` raises,
      leaving the registrations before it in place. */
  method RegisterDeclarations(parts: seq<string>, tokens: TokenManager) returns (outcome: Outcome)
    modifies tokens
    ensures outcome == ParseParts(parts).outcome
    ensures tokens.managed == old(tokens.managed) + ParseParts(parts).registered
    ensures tokens.started == old(tokens.started)
  {
    var i := 0;
    ghost var done: seq<Registration> := [];
    while i < |parts|
      invariant 0 <= i <= |parts| && |done| == i
      invariant forall j :: 0 <= j < i ==> '=' in parts[j] && done[j] == ParsePart(parts[j]).value
      invariant tokens.managed == old(tokens.managed) + done
      invariant tokens.started == old(tokens.started)
    {
      var pieces := Strings.SplitOnce(parts[i], '=');
      if |pieces| != 2 {
        assert ParseParts(parts) == Parsed(done, Fail(MalformedTokenPart(parts[i]))) by {
          ParsePartsStops(parts, i);
          assert ParseParts(parts).registered == done;
        }
        return Fail(MalformedTokenPart(parts[i]));
      }
      ghost var reg := ParsePart(parts[i]).value;
      assert '=' in parts[i] && reg == Registration(pieces[0], Strings.Split(pieces[1], ','));
      tokens.Manage(pieces[0], Strings.Split(pieces[1], ','));
      done := done + [reg];
      i := i + 1;
    }
    assert ParseParts(parts) == Parsed(done, Pass) by {
      ParsePartsPass(parts);
      assert ParseParts(parts).registered == done;
    }
    return Pass;
  }

  class NakadiWrapperFactory {
    var nakadiUrl: string
    var nakadiToken: string

    /** Before configuration both settings are unset (Python's `None`, which
        is falsy like the empty string). */
    constructor ()
      ensures nakadiUrl == "" && nakadiToken == ""
    {
      nakadiUrl := "";
      nakadiToken := "";
    }

    /** `configure`: remember the URL and default token name, register one
        token per declaration in order, then the identity token, then start
        the token manager. A malformed declaration stops it midway: the
        registrations before it stay made, and neither the identity token
        nor the start happens. */
    method Configure(conf: map<string, string>, tokens: TokenManager) returns (outcome: Outcome)
      modifies this, tokens
      ensures nakadiUrl == Setting(conf, "nakadi.url")
      ensures nakadiToken == Setting(conf, "nakadi.oauth2")
      ensures outcome == ParseTokenConfiguration(conf).outcome
      ensures tokens.managed == old(tokens.managed) + ParseTokenConfiguration(conf).registered
                                + (if outcome == Pass then [Uid] else [])
      ensures tokens.started == (old(tokens.started) || outcome == Pass)
      ensures Setting(conf, TokensKey) == "" ==> outcome == Pass && tokens.managed == old(tokens.managed) + [Uid]
    {
      nakadiUrl := Setting(conf, "nakadi.url");
      nakadiToken := Setting(conf, "nakadi.oauth2");
      outcome := Pass;
      if TokensKey in conf && conf[TokensKey] != "" {
        outcome := RegisterDeclarations(Strings.Split(conf[TokensKey], ':'), tokens);
        if outcome != Pass {
          return;
        }
      }
      tokens.Manage("uid", ["uid"]);
      tokens.Start();
    }

    /** `create`: the context's URL unless empty, else the configured one;
        the context's token name unless empty, else the configured one,
        else `uid`. The token name is never empty. */
    function Create(ctx: map<string, string>): (c: NakadiClient.Client)
      reads this
      ensures c.tokenName != ""
      ensures Setting(ctx, "url") != "" ==> c.url == ctx["url"]
      ensures Setting(ctx, "url") == "" ==> c.url == nakadiUrl
      ensures Setting(ctx, "oauth2token") != "" ==> c.tokenName == ctx["oauth2token"]
      ensures Setting(ctx, "oauth2token") == "" && nakadiToken != "" ==> c.tokenName == nakadiToken
      ensures Setting(ctx, "oauth2token") == "" && nakadiToken == "" ==> c.tokenName == "uid"
    {
      NakadiClient.Client(Or(Setting(ctx, "url"), nakadiUrl),
                          Or(Or(Setting(ctx, "oauth2token"), nakadiToken), "uid"))
    }
  }

  // The declaration format, written out: the inverse of reading it.

  /** A registration that survives being written as a declaration: a name
      without `=` or `:`, and at least one scope, none holding `,` or `:`.
      A scope may hold `=`. */
  predicate Writable(reg: Registration)
  {
    && '=' !in reg.tokenName && ':' !in reg.tokenName
    && |reg.scopes| >= 1
    && forall j :: 0 <= j < |reg.scopes| ==> ',' !in reg.scopes[j] && ':' !in reg.scopes[j]
  }

  function Render(reg: Registration): string
    requires Writable(reg)
  {
    reg.tokenName + "=" + Strings.Join(reg.scopes, ',')
  }

  function RenderAll(regs: seq<Registration>): (parts: seq<string>)
    requires forall i :: 0 <= i < |regs| ==> Writable(regs[i])
    ensures |parts| == |regs| && forall i :: 0 <= i < |regs| ==> parts[i] == Render(regs[i])
  {
    seq(|regs|, i requires 0 <= i < |regs| => Render(regs[i]))
  }

  /** The `oauth2.tokens` value declaring `regs`, in order. */
  function Declarations(regs: seq<Registration>): string
    requires |regs| >= 1
    requires forall i :: 0 <= i < |regs| ==> Writable(regs[i])
  {
    Strings.Join(RenderAll(regs), ':')
  }

  lemma ParseRender(reg: Registration)
    requires Writable(reg)
    ensures ParsePart(Render(reg)) == Ok(reg)
  {
    var body := Strings.Join(reg.scopes, ',');
    Strings.HeadBeforeFirst(reg.tokenName, '=', body);
    assert Render(reg) == reg.tokenName + ['='] + body;
    Strings.SplitJoin(reg.scopes, ',');
  }

  /** Writing registrations as declarations and reading them back gives the
      same registrations, and reading runs to the end. */
  lemma {:induction false} ReadWritten(regs: seq<Registration>)
    requires |regs| >= 1
    requires forall i :: 0 <= i < |regs| ==> Writable(regs[i])
    ensures ParseTokenConfiguration(map[TokensKey := Declarations(regs)]) == Parsed(regs, Pass)
  {
    var parts := RenderAll(regs);
    forall i | 0 <= i < |parts|
      ensures ':' !in parts[i] && '=' in parts[i] && ParsePart(parts[i]) == Ok(regs[i])
    {
      Strings.JoinAvoids(regs[i].scopes, ',', ':');
      ParseRender(regs[i]);
    }
    Strings.SplitJoin(parts, ':');
    assert |Declarations(regs)| > 0 by {
      assert '=' in parts[0];
      if |parts| > 1 {
        assert Declarations(regs) == parts[0] + [':'] + Strings.Join(parts[1..], ':');
      }
    }
    ParsePartsPass(parts);
    assert ParseParts(parts).registered == regs;
  }

  /** Reading a well-formed `oauth2.tokens` value and writing the
      registrations back gives the value: one registration per declaration,
      each with the declaration's name and scopes. */
  lemma {:induction false} WriteRead(declarations: string)
    requires declarations != ""
    requires ParseTokenConfiguration(map[TokensKey := declarations]).outcome == Pass
    ensures var regs := ParseTokenConfiguration(map[TokensKey := declarations]).registered;
      && |regs| == |Strings.Split(declarations, ':')|
      && (forall i :: 0 <= i < |regs| ==> Writable(regs[i]))
      && Declarations(regs) == declarations
  {
    var parts := Strings.Split(declarations, ':');
    ParsePartsPass(parts);
    Strings.SplitPiecesFree(declarations, ':');
    var regs := ParseParts(parts).registered;
    forall i | 0 <= i < |regs|
      ensures Writable(regs[i]) && Render(regs[i]) == parts[i]
    {
      ParsedWritable(parts[i]);
      ParsePartMeaning(parts[i]);
    }
    assert RenderAll(regs) == parts;
    Strings.JoinSplit(declarations, ':');
  }

  /** A declaration free of `:` reads as a registration that can be
      written back. */
  lemma ParsedWritable(part: string)
    requires ':' !in part && '=' in part
    ensures Writable(ParsePart(part).value)
  {
    var pieces := Strings.SplitOnce(part, '=');
    assert ':' !in pieces[0] && ':' !in pieces[1] by {
      assert part == pieces[0] + ['='] + pieces[1];
    }
    Strings.SplitPiecesFree(pieces[1], ',');
    Strings.SplitPiecesAvoid(pieces[1], ',', ':');
  }
}
