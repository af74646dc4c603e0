/** Discord links: the builders that write invite, message, template and
  * webhook links, and the parsers that read them back out of a link or out
  * of free text. Each parser is a regular expression; here each one is a
  * hand-written matcher for that one pattern. */
module Links {
  import opened Wrappers
  import opened Strings

  type Snowflake = nat

  /** `hikari.urls.BASE_URL`. */
  const BASE_URL: string := "https://discord.com"
  const HTTPS: string := "https://"
  const WWW: string := "www."
  const INVITE_BASE: string := "https://discord.gg/"
  const TEMPLATE_BASE: string := "https://discord.new/"
  const DM_GUILD: string := "@me"
  const NO_MATCH: string := "Link doesn't match pattern"

  // ---------------------------------------------------------------------
  // Characters
  // ---------------------------------------------------------------------

  /** The character classes the patterns use: `\w`, `\d` and the webhook
    * token's `[\w\d\.\-]`. */
  datatype CharClass = Word | Digit | Token

  predicate IsWordChar(c: char)
  {
    'a' <= c <= 'z' || 'A' <= c <= 'Z' || IsDigit(c) || c == '_'
  }

  predicate In(cls: CharClass, c: char)
  {
    match cls
    case Word => IsWordChar(c)
    case Digit => IsDigit(c)
    case Token => IsWordChar(c) || c == '.' || c == '-'
  }

  predicate AllIn(cls: CharClass, s: string)
  {
    forall i :: 0 <= i < |s| ==> In(cls, s[i])
  }

  /** The characters `str.strip()` removes. */
  predicate IsSpace(c: char)
  {
    c == ' ' || '\t' <= c <= '\r' || '\U{1C}' <= c <= '\U{1F}' || c == '\U{85}' || c == '\U{A0}'
    || c == '\U{1680}' || '\U{2000}' <= c <= '\U{200A}' || c == '\U{2028}' || c == '\U{2029}'
    || c == '\U{202F}' || c == '\U{205F}' || c == '\U{3000}'
  }

  function TrimStart(s: string): (r: string)
    ensures |r| <= |s| && r == s[|s| - |r|..]
    ensures r != [] ==> !IsSpace(r[0])
  {
    if s != [] && IsSpace(s[0]) then TrimStart(s[1..]) else s
  }

  function TrimEnd(s: string): (r: string)
    ensures |r| <= |s| && r == s[..|r|]
    ensures r != [] ==> !IsSpace(r[|r| - 1])
  {
    if s != [] && IsSpace(s[|s| - 1]) then TrimEnd(s[..|s| - 1]) else s
  }

  /** `str.strip()`. */
  function Strip(s: string): (r: string)
    ensures |r| <= |s|
    ensures r != [] ==> !IsSpace(r[0]) && !IsSpace(r[|r| - 1])
  {
    TrimEnd(TrimStart(s))
  }

  /** Whitespace around a link that starts and ends with a visible
    * character is all that stripping removes. */
  lemma {:induction false} StripPadded(pre: string, s: string, post: string)
    requires forall i :: 0 <= i < |pre| ==> IsSpace(pre[i])
    requires forall i :: 0 <= i < |post| ==> IsSpace(post[i])
    requires s != [] && !IsSpace(s[0]) && !IsSpace(s[|s| - 1])
    ensures Strip(pre + s + post) == s
  {
    TrimStartPadded(pre, s + post);
    assert pre + s + post == pre + (s + post);
    TrimEndPadded(s, post);
  }

  lemma {:induction false} TrimStartPadded(pre: string, s: string)
    requires forall i :: 0 <= i < |pre| ==> IsSpace(pre[i])
    requires s != [] && !IsSpace(s[0])
    ensures TrimStart(pre + s) == s
  {
    if pre != [] {
      assert (pre + s)[1..] == pre[1..] + s;
      TrimStartPadded(pre[1..], s);
    } else {
      assert pre + s == s;
    }
  }

  lemma {:induction false} TrimEndPadded(s: string, post: string)
    requires forall i :: 0 <= i < |post| ==> IsSpace(post[i])
    requires s != [] && !IsSpace(s[|s| - 1])
    ensures TrimEnd(s + post) == s
  {
    if post != [] {
      assert (s + post)[..|s + post| - 1] == s + post[..|post| - 1];
      TrimEndPadded(s, post[..|post| - 1]);
    } else {
      assert s + post == s;
    }
  }

  // ---------------------------------------------------------------------
  // Matching
  // ---------------------------------------------------------------------

  /** The length of the longest prefix of `s` in the class: what a greedy
    * `+` or `*` over the class consumes. */
  function Run(cls: CharClass, s: string): (n: nat)
    ensures n <= |s|
    ensures AllIn(cls, s[..n])
    ensures n < |s| ==> !In(cls, s[n])
  {
    if s != [] && In(cls, s[0]) then
      var n := 1 + Run(cls, s[1..]);
      assert s[..n] == [s[0]] + s[1..][..n - 1];
      n
    else 0
  }

  /** A run followed by something outside the class is read whole. */
  lemma {:induction false} RunExact(cls: CharClass, g: string, rest: string)
    requires AllIn(cls, g)
    requires rest == [] || !In(cls, rest[0])
    ensures Run(cls, g + rest) == |g|
  {
    if g != [] {
      assert (g + rest)[1..] == g[1..] + rest;
      RunExact(cls, g[1..], rest);
    } else {
      assert g + rest == rest;
    }
  }

  /** The pieces the four patterns are made of. */
  datatype Piece =
    | Lit(text: string)                                  // the text itself
    | OptLit(text: string)                               // `(?:text)?`
    | AnyOf(alternatives: seq<string>)                   // `(?:a|b|c)`
    | OptRun(open: string, cls: CharClass, close: string) // `(?:open[cls]+close)?`
    | Cap(cls: CharClass)                                // `([cls]+)`
    | CapOr(cls: CharClass, alternative: string)         // `([cls]+|alternative)`

  /** The four link patterns. */
  datatype Kind = InviteKind | MessageKind | TemplateKind | WebhookKind

  const INVITE_PATTERN: seq<Piece> :=
    [Lit(HTTPS), OptLit(WWW), AnyOf(["discord.gg", "discordapp.com/invite", "discord.com/invite"]),
     Lit("/"), Cap(Word)]
  const MESSAGE_PATTERN: seq<Piece> :=
    [Lit(HTTPS), OptLit(WWW), AnyOf(["discordapp.com", "discord.com"]),
     Lit("/channels/"), CapOr(Digit, DM_GUILD), Lit("/"), Cap(Digit), Lit("/"), Cap(Digit)]
  const TEMPLATE_PATTERN: seq<Piece> :=
    [Lit(HTTPS), OptLit(WWW), AnyOf(["discord.new", "discordapp.com/template", "discord.com/template"]),
     Lit("/"), Cap(Word)]
  const WEBHOOK_PATTERN: seq<Piece> :=
    [Lit(HTTPS), OptLit(WWW), AnyOf(["discordapp.com", "discord.com"]),
     Lit("/api/"), OptRun("v", Digit, "/"), Lit("webhooks/"), Cap(Digit), Lit("/"), Cap(Token)]

  function PatternOf(kind: Kind): seq<Piece>
  {
    match kind
    case InviteKind => INVITE_PATTERN
    case MessageKind => MESSAGE_PATTERN
    case TemplateKind => TEMPLATE_PATTERN
    case WebhookKind => WEBHOOK_PATTERN
  }

  /** The length of the first alternative that starts `t`. */
  function FirstOf(alternatives: seq<string>, t: string): (r: Option<nat>)
    ensures r.Some? ==> r.value <= |t|
  {
    if alternatives == [] then None
    else if alternatives[0] <= t then Some(|alternatives[0]|)
    else FirstOf(alternatives[1..], t)
  }

  /** What a captured group must look like. */
  predicate Fits(p: Piece, g: string)
  {
    match p
    case Cap(cls) => g != [] && AllIn(cls, g)
    case CapOr(cls, alternative) => g == alternative || (g != [] && AllIn(cls, g))
    case _ => false
  }

  /** Groups that fit the capturing pieces one for one. */
  predicate FitAll(caps: seq<Piece>, groups: seq<string>)
  {
    |groups| == |caps| && forall k :: 0 <= k < |groups| ==> Fits(caps[k], groups[k])
  }

  /** One piece matched at the start of `t`: what it consumes and what it
    * captures. A greedy run is read whole; each optional part and each
    * alternative is settled by the characters that start it. */
  function Step(p: Piece, t: string): (r: Option<(nat, seq<string>)>)
    ensures r.Some? ==> r.value.0 <= |t|
  {
    match p
    case Lit(x) => if x <= t then Some((|x|, [])) else None
    case OptLit(x) => Some((if x <= t then |x| else 0, []))
    case AnyOf(alternatives) =>
      (match FirstOf(alternatives, t)
       case None => None
       case Some(n) => Some((n, [])))
    case OptRun(o, cls, c) =>
      if o <= t && Run(cls, t[|o|..]) > 0 && c <= t[|o| + Run(cls, t[|o|..])..]
      then Some((|o| + Run(cls, t[|o|..]) + |c|, []))
      else Some((0, []))
    case Cap(cls) =>
      var n := Run(cls, t);
      if n > 0 then Some((n, [t[..n]])) else None
    case CapOr(cls, alternative) =>
      var n := Run(cls, t);
      if n > 0 then Some((n, [t[..n]]))
      else if alternative <= t then Some((|alternative|, [alternative]))
      else None
  }

  /** A pattern matched at the start of `t`, piece after piece. These
    * patterns need no backtracking: every run is followed by a literal
    * outside its class or ends the pattern, and no alternative is a prefix
    * of another. */
  function Exec(pattern: seq<Piece>, k: nat, t: string): (r: Option<(nat, seq<string>)>)
    requires k <= |pattern|
    ensures r.Some? ==> r.value.0 <= |t|
    decreases |pattern| - k
  {
    if k == |pattern| then Some((0, []))
    else
      match Step(pattern[k], t)
      case None => None
      case Some(first) =>
        match Exec(pattern, k + 1, t[first.0..])
        case None => None
        case Some(rest) => Some((first.0 + rest.0, first.1 + rest.1))
  }

  /** What a piece captures fits it. */
  lemma StepFits(p: Piece, t: string)
    requires Step(p, t).Some?
    ensures FitAll(Own(p), Step(p, t).value.1)
  {
  }

  /** A match captures one fitting group per capturing piece, and begins
    * with what its first piece takes. */
  lemma {:induction false} ExecFits(pattern: seq<Piece>, k: nat, t: string)
    requires k <= |pattern| && Exec(pattern, k, t).Some?
    ensures FitAll(Captures(pattern, k), Exec(pattern, k, t).value.1)
    ensures k < |pattern| ==> Step(pattern[k], t).Some? && Step(pattern[k], t).value.0 <= Exec(pattern, k, t).value.0
    decreases |pattern| - k
  {
    if k < |pattern| {
      var first := Step(pattern[k], t).value;
      var rest := Exec(pattern, k + 1, t[first.0..]).value;
      StepFits(pattern[k], t);
      ExecFits(pattern, k + 1, t[first.0..]);
      var own := Own(pattern[k]);
      forall i | 0 <= i < |first.1 + rest.1|
        ensures Fits((own + Captures(pattern, k + 1))[i], (first.1 + rest.1)[i])
      {
        if i >= |first.1| {
          assert (first.1 + rest.1)[i] == rest.1[i - |first.1|];
        }
      }
    }
  }

  /** A match: the whole matched text (`match.group()`) and the captured
    * groups (`match.groups()`). */
  datatype Match = Match(whole: string, groups: seq<string>)

  /** The piece itself when it captures, else nothing. */
  function Own(p: Piece): seq<Piece>
  {
    if p.Cap? || p.CapOr? then [p] else []
  }

  /** The capturing pieces of a pattern from piece `k` on, in order. */
  function Captures(pattern: seq<Piece>, k: nat): seq<Piece>
    requires k <= |pattern|
    decreases |pattern| - k
  {
    if k == |pattern| then [] else Own(pattern[k]) + Captures(pattern, k + 1)
  }

  lemma CapturesLast(p: seq<Piece>)
    requires |p| == 5
    requires Own(p[0]) == [] && Own(p[1]) == [] && Own(p[2]) == [] && Own(p[3]) == []
    requires p[4].Cap? || p[4].CapOr?
    ensures Captures(p, 0) == [p[4]]
  {
    assert Captures(p, 4) == [p[4]];
    assert Captures(p, 3) == [p[4]];
    assert Captures(p, 2) == [p[4]];
    assert Captures(p, 1) == [p[4]];
    assert Captures(p, 0) == [p[4]];
  }

  lemma CapturesThree(p: seq<Piece>)
    requires |p| == 9
    requires Own(p[0]) == [] && Own(p[1]) == [] && Own(p[2]) == [] && Own(p[3]) == [] && Own(p[5]) == [] && Own(p[7]) == []
    requires p[4].Cap? || p[4].CapOr?
    requires p[6].Cap? || p[6].CapOr?
    requires p[8].Cap? || p[8].CapOr?
    ensures Captures(p, 0) == [p[4], p[6], p[8]]
  {
    assert Captures(p, 8) == [p[8]];
    assert Captures(p, 7) == [p[8]];
    assert Captures(p, 6) == [p[6], p[8]];
    assert Captures(p, 5) == [p[6], p[8]];
    assert Captures(p, 4) == [p[4], p[6], p[8]];
    assert Captures(p, 3) == [p[4], p[6], p[8]];
    assert Captures(p, 2) == [p[4], p[6], p[8]];
    assert Captures(p, 1) == [p[4], p[6], p[8]];
    assert Captures(p, 0) == [p[4], p[6], p[8]];
  }

  lemma CapturesTwo(p: seq<Piece>)
    requires |p| == 9
    requires Own(p[0]) == [] && Own(p[1]) == [] && Own(p[2]) == [] && Own(p[3]) == [] && Own(p[4]) == [] && Own(p[5]) == [] && Own(p[7]) == []
    requires p[6].Cap? || p[6].CapOr?
    requires p[8].Cap? || p[8].CapOr?
    ensures Captures(p, 0) == [p[6], p[8]]
  {
    assert Captures(p, 8) == [p[8]];
    assert Captures(p, 7) == [p[8]];
    assert Captures(p, 6) == [p[6], p[8]];
    assert Captures(p, 5) == [p[6], p[8]];
    assert Captures(p, 4) == [p[6], p[8]];
    assert Captures(p, 3) == [p[6], p[8]];
    assert Captures(p, 2) == [p[6], p[8]];
    assert Captures(p, 1) == [p[6], p[8]];
    assert Captures(p, 0) == [p[6], p[8]];
  }

  /** The capturing pieces of each pattern. */
  function CapturesOf(kind: Kind): (caps: seq<Piece>)
    ensures caps == Captures(PatternOf(kind), 0)
  {
    match kind
    case InviteKind =>
      CapturesLast(INVITE_PATTERN);
      [Cap(Word)]
    case TemplateKind =>
      CapturesLast(TEMPLATE_PATTERN);
      [Cap(Word)]
    case MessageKind =>
      CapturesThree(MESSAGE_PATTERN);
      [CapOr(Digit, DM_GUILD), Cap(Digit), Cap(Digit)]
    case WebhookKind =>
      CapturesTwo(WEBHOOK_PATTERN);
      [Cap(Digit), Cap(Token)]
  }

  predicate Shaped(kind: Kind, m: Match)
  {
    FitAll(CapturesOf(kind), m.groups)
  }

  /** `pattern.match(s)` for a pattern that starts with "https://". */
  function MatchOf(p: seq<Piece>, s: string): (m: Option<Match>)
    requires |p| > 0 && p[0] == Lit(HTTPS)
    ensures m.Some? ==> |HTTPS| <= |m.value.whole| <= |s| && m.value.whole == s[..|m.value.whole|]
    ensures m.Some? ==> FitAll(Captures(p, 0), m.value.groups) && HTTPS <= m.value.whole
  {
    match Exec(p, 0, s)
    case None => None
    case Some(r) =>
      ExecFits(p, 0, s);
      assert HTTPS <= s[..r.0];
      Some(Match(s[..r.0], r.1))
  }

  /** `pattern.match(s)`: the match that starts at the start of `s`. */
  function MatchStart(kind: Kind, s: string): (m: Option<Match>)
    ensures m.Some? ==> |HTTPS| <= |m.value.whole| <= |s| && m.value.whole == s[..|m.value.whole|]
    ensures m.Some? ==> Shaped(kind, m.value) && HTTPS <= m.value.whole
  {
    MatchOf(PatternOf(kind), s)
  }

  /** `pattern.fullmatch(s)`: a match that takes all of `s` (the match
    * that starts at the start is the longest one). */
  function FullMatch(kind: Kind, s: string): (m: Option<Match>)
    ensures m.Some? <==> MatchStart(kind, s).Some? && |MatchStart(kind, s).value.whole| == |s|
    ensures m.Some? ==> m.value.whole == s && Shaped(kind, m.value) && HTTPS <= s
  {
    var m := MatchStart(kind, s);
    if m.Some? && |m.value.whole| == |s| then m else None
  }

  // ---------------------------------------------------------------------
  // Links
  // ---------------------------------------------------------------------

  /** The four link classes (the bound app is left out). */
  datatype Link =
    | InviteLink(code: string)
    | MessageLink(channelId: Snowflake, guildId: Option<Snowflake>, messageId: Snowflake)
    | TemplateLink(code: string)
    | WebhookLink(webhookId: Snowflake, token: string)
  {
    /** `MessageLink.is_dm_link`. */
    predicate IsDmLink()
      requires MessageLink?
    {
      guildId.None?
    }
  }

  function KindOf(l: Link): Kind
  {
    match l
    case InviteLink(_) => InviteKind
    case MessageLink(_, _, _) => MessageKind
    case TemplateLink(_) => TemplateKind
    case WebhookLink(_, _) => WebhookKind
  }

  function MakeInviteLink(code: string): (r: string)
    ensures HTTPS <= r && INVITE_BASE <= r && r[|INVITE_BASE|..] == code
  {
    INVITE_BASE + code
  }

  /** `make_message_link`: "@me" stands for the guild of a DM. */
  function MakeMessageLink(channel: Snowflake, message: Snowflake, guild: Option<Snowflake>): (r: string)
    ensures HTTPS <= r && BASE_URL + "/channels/" <= r
    ensures |r| > |Decimal(message)| && r[|r| - |Decimal(message)| - 1..] == "/" + Decimal(message)
  {
    BASE_URL + "/channels/" + (if guild.None? then DM_GUILD else Decimal(guild.value))
    + "/" + Decimal(channel) + "/" + Decimal(message)
  }

  function MakeTemplateLink(code: string): (r: string)
    ensures HTTPS <= r && TEMPLATE_BASE <= r && r[|TEMPLATE_BASE|..] == code
  {
    TEMPLATE_BASE + code
  }

  function MakeWebhookLink(webhook: Snowflake, token: string): (r: string)
    ensures HTTPS <= r && BASE_URL + "/api/webhooks/" <= r
    ensures |r| > |token| && r[|r| - |token| - 1..] == "/" + token
  {
    BASE_URL + "/api/webhooks/" + Decimal(webhook) + "/" + token
  }

  /** `_from_match` as written: invite and template links keep the whole
    * matched URL as their code. */
  function FromMatchAsWritten(kind: Kind, m: Match): (l: Link)
    requires Shaped(kind, m)
    ensures KindOf(l) == kind
    ensures l.InviteLink? || l.TemplateLink? ==> l.code == m.whole
    ensures kind == MessageKind || kind == WebhookKind ==> l == FromMatch(kind, m)
  {
    match kind
    case InviteKind => InviteLink(m.whole)
    case TemplateKind => TemplateLink(m.whole)
    case _ => FromMatch(kind, m)
  }

  /** `_from_match` as intended: every link is built from the captured
    * groups, and a guild of "@me" is a DM. */
  function FromMatch(kind: Kind, m: Match): (l: Link)
    requires Shaped(kind, m)
    ensures KindOf(l) == kind
  {
    match kind
    case InviteKind => InviteLink(m.groups[0])
    case TemplateKind => TemplateLink(m.groups[0])
    case MessageKind =>
      MessageLink(DecimalValue(m.groups[1]),
                  if m.groups[0] == DM_GUILD then None else Some(DecimalValue(m.groups[0])),
                  DecimalValue(m.groups[2]))
    case WebhookKind => WebhookLink(DecimalValue(m.groups[0]), m.groups[1])
  }

  /** `from_link` as written: the stripped link must match the whole
    * pattern, else `ValueError`. */
  function FromLinkAsWritten(kind: Kind, link: string): (r: Result<Link>)
    ensures r.Failure? <==> FullMatch(kind, Strip(link)).None?
    ensures r.Failure? ==> r.error == ValueError(NO_MATCH)
  {
    match FullMatch(kind, Strip(link))
    case None => Failure(ValueError(NO_MATCH))
    case Some(m) => Success(FromMatchAsWritten(kind, m))
  }

  /** `from_link`, building the link from the captured groups. */
  function FromLink(kind: Kind, link: string): (r: Result<Link>)
    ensures r.Failure? <==> FullMatch(kind, Strip(link)).None?
    ensures r.Failure? ==> r.error == ValueError(NO_MATCH)
    ensures r.Success? ==> KindOf(r.value) == kind
  {
    match FullMatch(kind, Strip(link))
    case None => Failure(ValueError(NO_MATCH))
    case Some(m) => Success(FromMatch(kind, m))
  }

  /** `str()` of a message, template or webhook link (`InviteLink` defines
    * none of its own). */
  function ToString(l: Link): (r: string)
    requires !l.InviteLink?
    ensures HTTPS <= r
  {
    match l
    case MessageLink(c, g, m) => MakeMessageLink(c, m, g)
    case TemplateLink(code) => MakeTemplateLink(code)
    case WebhookLink(w, t) => MakeWebhookLink(w, t)
  }

  /** The match `pattern.match` finds at each position of a text. */
  function MatchesIn(kind: Kind, content: string): (ms: seq<Option<Match>>)
    ensures |ms| == |content|
    ensures forall j :: 0 <= j < |ms| ==> ms[j] == MatchStart(kind, content[j..])
    ensures Scannable(kind, ms)
  {
    seq(|content|, j requires 0 <= j < |content| => MatchStart(kind, content[j..]))
  }

  /** Matches that fit in the text after their position and have the
    * pattern's groups. */
  predicate Scannable(kind: Kind, ms: seq<Option<Match>>)
  {
    forall j :: 0 <= j < |ms| && ms[j].Some? ==> 0 < |ms[j].value.whole| <= |ms| - j && Shaped(kind, ms[j].value)
  }

  /** The link `_from_match` builds, as written or as intended. */
  function Build(kind: Kind, m: Match, asWritten: bool): (l: Link)
    requires Shaped(kind, m)
    ensures KindOf(l) == kind
  {
    if asWritten then FromMatchAsWritten(kind, m) else FromMatch(kind, m)
  }

  /** `find_iter` from position `i`, given the match at each position: a
    * match is taken and the scan resumes after it; otherwise the scan moves
    * on one character. `asWritten` picks `_from_match` as written or as
    * intended. */
  function FindFrom(kind: Kind, ms: seq<Option<Match>>, i: nat, asWritten: bool): (r: seq<Link>)
    requires Scannable(kind, ms) && i <= |ms|
    ensures forall k :: 0 <= k < |r| ==> KindOf(r[k]) == kind
    ensures |r| <= |ms| - i
    decreases |ms| - i
  {
    if i == |ms| then []
    else
      match ms[i]
      case Some(m) => [Build(kind, m, asWritten)] + FindFrom(kind, ms, i + |m.whole|, asWritten)
      case None => FindFrom(kind, ms, i + 1, asWritten)
  }

  /** `find_iter`: the links in the text, left to right. */
  function FindIter(kind: Kind, content: string, asWritten: bool): (r: seq<Link>)
    ensures forall k :: 0 <= k < |r| ==> KindOf(r[k]) == kind
    ensures |r| <= |content|
  {
    FindFrom(kind, MatchesIn(kind, content), 0, asWritten)
  }

  /** `find`: the first link `find_iter` yields, if any. */
  function Find(kind: Kind, content: string, asWritten: bool): (r: Option<Link>)
    ensures r.None? <==> FindIter(kind, content, asWritten) == []
  {
    var links := FindIter(kind, content, asWritten);
    if links == [] then None else Some(links[0])
  }

  // ---------------------------------------------------------------------
  // Matching built links
  // ---------------------------------------------------------------------

  /** The text from piece `k` on, when piece `j` reads `texts[j]`. */
  function TextFrom(texts: seq<string>, k: nat): (t: string)
    requires k <= |texts|
    decreases |texts| - k
  {
    if k == |texts| then [] else texts[k] + TextFrom(texts, k + 1)
  }

  /** The groups captured from piece `k` on, when piece `j` captures
    * `caps[j]`. */
  function GroupsFrom(caps: seq<seq<string>>, k: nat): seq<string>
    requires k <= |caps|
    decreases |caps| - k
  {
    if k == |caps| then [] else caps[k] + GroupsFrom(caps, k + 1)
  }

  /** Each piece from `k` on reads its own text off what the pieces before
    * it leave, capturing its own groups. */
  predicate ReadsAs(p: seq<Piece>, texts: seq<string>, caps: seq<seq<string>>, k: nat)
  {
    |texts| == |p| && |caps| == |p| && k <= |p|
    && forall j :: k <= j < |p| ==> Step(p[j], TextFrom(texts, j)) == Some((|texts[j]| as nat, caps[j]))
  }

  /** Matching is reading piece after piece: a text whose pieces each read
    * their own part is matched whole, its groups those of the pieces. */
  lemma {:induction false} ExecReads(p: seq<Piece>, texts: seq<string>, caps: seq<seq<string>>, k: nat)
    requires ReadsAs(p, texts, caps, k)
    ensures Exec(p, k, TextFrom(texts, k)) == Some((|TextFrom(texts, k)| as nat, GroupsFrom(caps, k)))
    decreases |p| - k
  {
    if k < |p| {
      ExecReads(p, texts, caps, k + 1);
      var t := TextFrom(texts, k);
      assert t[|texts[k]|..] == TextFrom(texts, k + 1);
    }
  }

  lemma ExecOfTexts(p: seq<Piece>, texts: seq<string>, caps: seq<seq<string>>, s: string, groups: seq<string>)
    requires ReadsAs(p, texts, caps, 0)
    requires TextFrom(texts, 0) == s && GroupsFrom(caps, 0) == groups
    ensures Exec(p, 0, s) == Some((|s| as nat, groups))
  {
    ExecReads(p, texts, caps, 0);
  }

  lemma StepLit(x: string, u: string)
    ensures Step(Lit(x), x + u) == Some((|x| as nat, []))
    ensures (x + u)[|x|..] == u
  {
    assert (x + u)[..|x|] == x;
  }

  /** An optional literal whose first character is not there is skipped. */
  lemma StepOptLitAbsent(x: string, t: string)
    requires x != [] && t != [] && t[0] != x[0]
    ensures Step(OptLit(x), t) == Some((0, []))
  {
  }

  /** Likewise an optional run. */
  lemma StepOptRunAbsent(o: string, cls: CharClass, c: string, t: string)
    requires o != [] && t != [] && t[0] != o[0]
    ensures Step(OptRun(o, cls, c), t) == Some((0, []))
  {
  }

  /** A capture reads a whole run that something outside its class ends. */
  lemma StepCap(p: Piece, g: string, u: string)
    requires p.Cap? || p.CapOr?
    requires g != [] && AllIn(p.cls, g)
    requires u == [] || !In(p.cls, u[0])
    ensures Step(p, g + u) == Some((|g| as nat, [g]))
    ensures (g + u)[|g|..] == u
  {
    RunExact(p.cls, g, u);
    assert (g + u)[..|g|] == g;
  }

  /** "@me" in place of a guild id: '@' starts no run of digits. */
  lemma StepDmGuild(u: string)
    ensures Step(CapOr(Digit, DM_GUILD), DM_GUILD + u) == Some((|DM_GUILD| as nat, [DM_GUILD]))
    ensures (DM_GUILD + u)[|DM_GUILD|..] == u
  {
    assert (DM_GUILD + u)[0] == '@';
    assert (DM_GUILD + u)[..|DM_GUILD|] == DM_GUILD;
  }

  /** The host the builders write is the one alternative that matches. */
  lemma StepDiscordCom(u: string)
    ensures Step(AnyOf(["discordapp.com", "discord.com"]), "discord.com" + u) == Some((11, []))
    ensures ("discord.com" + u)[11..] == u
  {
    var t := "discord.com" + u;
    assert t[7] == '.';
    assert !("discordapp.com" <= t) by {
      if |t| >= 14 {
        assert "discordapp.com"[7] == 'a';
      }
    }
    assert t[..11] == "discord.com";
    var alternatives := ["discordapp.com", "discord.com"];
    assert alternatives[1..] == ["discord.com"];
    assert FirstOf(alternatives[1..], t) == Some(11);
  }

  lemma StepDiscordGg(u: string)
    ensures Step(AnyOf(["discord.gg", "discordapp.com/invite", "discord.com/invite"]), "discord.gg" + u) == Some((10, []))
    ensures ("discord.gg" + u)[10..] == u
  {
    assert ("discord.gg" + u)[..10] == "discord.gg";
  }

  lemma StepDiscordNew(u: string)
    ensures Step(AnyOf(["discord.new", "discordapp.com/template", "discord.com/template"]), "discord.new" + u) == Some((11, []))
    ensures ("discord.new" + u)[11..] == u
  {
    assert ("discord.new" + u)[..11] == "discord.new";
  }

  lemma Text5(a: string, b: string, c: string, d: string, e: string)
    ensures TextFrom([a, b, c, d, e], 0) == a + (b + (c + (d + e)))
    ensures TextFrom([a, b, c, d, e], 1) == b + (c + (d + e))
    ensures TextFrom([a, b, c, d, e], 2) == c + (d + e)
    ensures TextFrom([a, b, c, d, e], 3) == d + e
    ensures TextFrom([a, b, c, d, e], 4) == e
  {
    var texts := [a, b, c, d, e];
    assert TextFrom(texts, 4) == e + [] == e;
    assert TextFrom(texts, 3) == d + e;
    assert TextFrom(texts, 2) == c + (d + e);
    assert TextFrom(texts, 1) == b + (c + (d + e));
  }

  lemma Text9(a: string, b: string, c: string, d: string, e: string, f: string, g: string, h: string, i: string)
    ensures TextFrom([a, b, c, d, e, f, g, h, i], 0) == a + (b + (c + (d + (e + (f + (g + (h + i)))))))
    ensures TextFrom([a, b, c, d, e, f, g, h, i], 1) == b + (c + (d + (e + (f + (g + (h + i))))))
    ensures TextFrom([a, b, c, d, e, f, g, h, i], 2) == c + (d + (e + (f + (g + (h + i)))))
    ensures TextFrom([a, b, c, d, e, f, g, h, i], 3) == d + (e + (f + (g + (h + i))))
    ensures TextFrom([a, b, c, d, e, f, g, h, i], 4) == e + (f + (g + (h + i)))
    ensures TextFrom([a, b, c, d, e, f, g, h, i], 5) == f + (g + (h + i))
    ensures TextFrom([a, b, c, d, e, f, g, h, i], 6) == g + (h + i)
    ensures TextFrom([a, b, c, d, e, f, g, h, i], 7) == h + i
    ensures TextFrom([a, b, c, d, e, f, g, h, i], 8) == i
  {
    var texts := [a, b, c, d, e, f, g, h, i];
    assert TextFrom(texts, 8) == i + [] == i;
    assert TextFrom(texts, 7) == h + i;
    assert TextFrom(texts, 6) == g + (h + i);
    assert TextFrom(texts, 5) == f + (g + (h + i));
    assert TextFrom(texts, 4) == e + (f + (g + (h + i)));
    assert TextFrom(texts, 3) == d + (e + (f + (g + (h + i))));
    assert TextFrom(texts, 2) == c + (d + (e + (f + (g + (h + i)))));
    assert TextFrom(texts, 1) == b + (c + (d + (e + (f + (g + (h + i))))));
  }

  lemma GroupsOne(g: string)
    ensures GroupsFrom([[], [], [], [], [g]], 0) == [g]
  {
    var caps: seq<seq<string>> := [[], [], [], [], [g]];
    assert GroupsFrom(caps, 4) == [g] + [] == [g];
    assert GroupsFrom(caps, 2) == [g];
  }

  lemma GroupsThree(a: string, b: string, c: string)
    ensures GroupsFrom([[], [], [], [], [a], [], [b], [], [c]], 0) == [a, b, c]
  {
    var caps: seq<seq<string>> := [[], [], [], [], [a], [], [b], [], [c]];
    assert GroupsFrom(caps, 8) == [c] + [] == [c];
    assert GroupsFrom(caps, 6) == [b] + [c] == [b, c];
    assert GroupsFrom(caps, 4) == [a] + [b, c] == [a, b, c];
    assert GroupsFrom(caps, 2) == [a, b, c];
  }

  lemma GroupsTwo(a: string, b: string)
    ensures GroupsFrom([[], [], [], [], [], [], [a], [], [b]], 0) == [a, b]
  {
    var caps: seq<seq<string>> := [[], [], [], [], [], [], [a], [], [b]];
    assert GroupsFrom(caps, 8) == [b] + [] == [b];
    assert GroupsFrom(caps, 6) == [a] + [b] == [a, b];
    assert GroupsFrom(caps, 4) == [a, b];
    assert GroupsFrom(caps, 2) == [a, b];
  }

  /** How a built invite link reads, piece by piece. */
  lemma InviteReads(code: string)
    requires code != [] && AllIn(Word, code)
    ensures ReadsAs(INVITE_PATTERN, [HTTPS, "", "discord.gg", "/", code], [[], [], [], [], [code]], 0)
  {
    var texts := [HTTPS, "", "discord.gg", "/", code];
    var caps: seq<seq<string>> := [[], [], [], [], [code]];
    var p := INVITE_PATTERN;
    Text5(HTTPS, "", "discord.gg", "/", code);
    forall j | 0 <= j < 5
      ensures Step(p[j], TextFrom(texts, j)) == Some((|texts[j]| as nat, caps[j]))
    {
      var t2 := "discord.gg" + ("/" + code);
      if j == 4 {
        assert code + [] == code;
        StepCap(p[4], code, []);
      } else if j == 3 {
        StepLit("/", code);
      } else if j == 2 {
        StepDiscordGg("/" + code);
      } else if j == 1 {
        assert "" + t2 == t2;
        StepOptLitAbsent(WWW, t2);
      } else {
        assert "" + t2 == t2;
        StepLit(HTTPS, t2);
      }
    }
  }

  /** An invite link this module builds is matched whole, its code the one
    * group. */
  lemma ExecInvite(code: string)
    requires code != [] && AllIn(Word, code)
    ensures Exec(INVITE_PATTERN, 0, MakeInviteLink(code)) == Some((|MakeInviteLink(code)| as nat, [code]))
  {
    InviteReads(code);
    InviteText(code);
    GroupsOne(code);
    ExecOfTexts(INVITE_PATTERN, [HTTPS, "", "discord.gg", "/", code], [[], [], [], [], [code]], MakeInviteLink(code), [code]);
  }

  /** How a built template link reads, piece by piece. */
  lemma TemplateReads(code: string)
    requires code != [] && AllIn(Word, code)
    ensures ReadsAs(TEMPLATE_PATTERN, [HTTPS, "", "discord.new", "/", code], [[], [], [], [], [code]], 0)
  {
    var texts := [HTTPS, "", "discord.new", "/", code];
    var caps: seq<seq<string>> := [[], [], [], [], [code]];
    var p := TEMPLATE_PATTERN;
    Text5(HTTPS, "", "discord.new", "/", code);
    forall j | 0 <= j < 5
      ensures Step(p[j], TextFrom(texts, j)) == Some((|texts[j]| as nat, caps[j]))
    {
      var t2 := "discord.new" + ("/" + code);
      if j == 4 {
        assert code + [] == code;
        StepCap(p[4], code, []);
      } else if j == 3 {
        StepLit("/", code);
      } else if j == 2 {
        StepDiscordNew("/" + code);
      } else if j == 1 {
        assert "" + t2 == t2;
        StepOptLitAbsent(WWW, t2);
      } else {
        assert "" + t2 == t2;
        StepLit(HTTPS, t2);
      }
    }
  }

  /** A template link this module builds is matched whole, its code the one
    * group. */
  lemma ExecTemplate(code: string)
    requires code != [] && AllIn(Word, code)
    ensures Exec(TEMPLATE_PATTERN, 0, MakeTemplateLink(code)) == Some((|MakeTemplateLink(code)| as nat, [code]))
  {
    TemplateReads(code);
    TemplateText(code);
    GroupsOne(code);
    ExecOfTexts(TEMPLATE_PATTERN, [HTTPS, "", "discord.new", "/", code], [[], [], [], [], [code]], MakeTemplateLink(code), [code]);
  }

  /** The guild part a message link is written with. */
  function GuildPart(guild: Option<Snowflake>): (g: string)
    ensures g == DM_GUILD || (g != [] && AllIn(Digit, g))
  {
    if guild.None? then DM_GUILD else Decimal(guild.value)
  }

  /** How a built message link reads, piece by piece. */
  lemma MessageReads(dg: string, dc: string, dm: string)
    requires dg == DM_GUILD || (dg != [] && AllIn(Digit, dg))
    requires dc != [] && AllIn(Digit, dc) && dm != [] && AllIn(Digit, dm)
    ensures ReadsAs(MESSAGE_PATTERN, [HTTPS, "", "discord.com", "/channels/", dg, "/", dc, "/", dm],
                    [[], [], [], [], [dg], [], [dc], [], [dm]], 0)
  {
    var texts := [HTTPS, "", "discord.com", "/channels/", dg, "/", dc, "/", dm];
    var caps: seq<seq<string>> := [[], [], [], [], [dg], [], [dc], [], [dm]];
    var p := MESSAGE_PATTERN;
    Text9(HTTPS, "", "discord.com", "/channels/", dg, "/", dc, "/", dm);
    forall j | 0 <= j < 9
      ensures Step(p[j], TextFrom(texts, j)) == Some((|texts[j]| as nat, caps[j]))
    {
      var t5 := "/" + (dc + ("/" + dm));
      var t3 := "/channels/" + (dg + t5);
      if j == 8 {
        assert dm + [] == dm;
        StepCap(p[8], dm, []);
      } else if j == 7 {
        StepLit("/", dm);
      } else if j == 6 {
        assert ("/" + dm)[0] == '/';
        StepCap(p[6], dc, "/" + dm);
      } else if j == 5 {
        StepLit("/", dc + ("/" + dm));
      } else if j == 4 {
        if dg == DM_GUILD {
          StepDmGuild(t5);
        } else {
          assert t5[0] == '/';
          StepCap(p[4], dg, t5);
        }
      } else if j == 3 {
        StepLit("/channels/", dg + t5);
      } else if j == 2 {
        StepDiscordCom(t3);
      } else if j == 1 {
        assert "" + ("discord.com" + t3) == "discord.com" + t3;
        StepOptLitAbsent(WWW, "discord.com" + t3);
      } else {
        assert "" + ("discord.com" + t3) == "discord.com" + t3;
        StepLit(HTTPS, "discord.com" + t3);
      }
    }
  }

  /** A message link this module builds is matched whole, its groups the
    * guild part and the two ids. */
  lemma ExecMessage(channel: Snowflake, message: Snowflake, guild: Option<Snowflake>)
    ensures Exec(MESSAGE_PATTERN, 0, MakeMessageLink(channel, message, guild))
         == Some((|MakeMessageLink(channel, message, guild)| as nat, [GuildPart(guild), Decimal(channel), Decimal(message)]))
  {
    var dg, dc, dm := GuildPart(guild), Decimal(channel), Decimal(message);
    MessageReads(dg, dc, dm);
    MessageText(channel, message, guild);
    GroupsThree(dg, dc, dm);
    ExecOfTexts(MESSAGE_PATTERN, [HTTPS, "", "discord.com", "/channels/", dg, "/", dc, "/", dm],
                [[], [], [], [], [dg], [], [dc], [], [dm]], MakeMessageLink(channel, message, guild), [dg, dc, dm]);
  }

  /** How a built webhook link reads, piece by piece. */
  lemma WebhookReads(dw: string, token: string)
    requires dw != [] && AllIn(Digit, dw) && token != [] && AllIn(Token, token)
    ensures ReadsAs(WEBHOOK_PATTERN, [HTTPS, "", "discord.com", "/api/", "", "webhooks/", dw, "/", token],
                    [[], [], [], [], [], [], [dw], [], [token]], 0)
  {
    var texts := [HTTPS, "", "discord.com", "/api/", "", "webhooks/", dw, "/", token];
    var caps: seq<seq<string>> := [[], [], [], [], [], [], [dw], [], [token]];
    var p := WEBHOOK_PATTERN;
    Text9(HTTPS, "", "discord.com", "/api/", "", "webhooks/", dw, "/", token);
    forall j | 0 <= j < 9
      ensures Step(p[j], TextFrom(texts, j)) == Some((|texts[j]| as nat, caps[j]))
    {
      var t5 := "webhooks/" + (dw + ("/" + token));
      var t3 := "/api/" + ("" + t5);
      if j == 8 {
        assert token + [] == token;
        StepCap(p[8], token, []);
      } else if j == 7 {
        StepLit("/", token);
      } else if j == 6 {
        assert ("/" + token)[0] == '/';
        StepCap(p[6], dw, "/" + token);
      } else if j == 5 {
        StepLit("webhooks/", dw + ("/" + token));
      } else if j == 4 {
        assert "" + t5 == t5 && t5[0] == 'w';
        StepOptRunAbsent("v", Digit, "/", t5);
      } else if j == 3 {
        assert "" + t5 == t5;
        StepLit("/api/", t5);
      } else if j == 2 {
        StepDiscordCom(t3);
      } else if j == 1 {
        assert "" + ("discord.com" + t3) == "discord.com" + t3;
        StepOptLitAbsent(WWW, "discord.com" + t3);
      } else {
        assert "" + ("discord.com" + t3) == "discord.com" + t3;
        StepLit(HTTPS, "discord.com" + t3);
      }
    }
  }

  /** A webhook link this module builds is matched whole, its groups the
    * id and the token. */
  lemma ExecWebhook(webhook: Snowflake, token: string)
    requires token != [] && AllIn(Token, token)
    ensures Exec(WEBHOOK_PATTERN, 0, MakeWebhookLink(webhook, token))
         == Some((|MakeWebhookLink(webhook, token)| as nat, [Decimal(webhook), token]))
  {
    var dw := Decimal(webhook);
    WebhookReads(dw, token);
    WebhookText(webhook, token);
    GroupsTwo(dw, token);
    ExecOfTexts(WEBHOOK_PATTERN, [HTTPS, "", "discord.com", "/api/", "", "webhooks/", dw, "/", token],
                [[], [], [], [], [], [], [dw], [], [token]], MakeWebhookLink(webhook, token), [dw, token]);
  }

  /** The built links, piece by piece. */
  lemma InviteText(code: string)
    ensures TextFrom([HTTPS, "", "discord.gg", "/", code], 0) == MakeInviteLink(code)
  {
    Text5(HTTPS, "", "discord.gg", "/", code);
    assert HTTPS + ("" + ("discord.gg" + ("/" + code))) == MakeInviteLink(code);
  }

  lemma TemplateText(code: string)
    ensures TextFrom([HTTPS, "", "discord.new", "/", code], 0) == MakeTemplateLink(code)
  {
    Text5(HTTPS, "", "discord.new", "/", code);
    assert HTTPS + ("" + ("discord.new" + ("/" + code))) == MakeTemplateLink(code);
  }

  /** `BASE_URL` is "https://" and the host. */
  lemma BaseUrl()
    ensures BASE_URL == HTTPS + "discord.com"
  {
  }

  lemma Regroup(a: string, b: string, c: string, d: string, e: string, f: string, g: string, h: string)
    ensures a + (b + (c + (d + (e + (f + (g + h)))))) == ((((((a + b) + c) + d) + e) + f) + g) + h
  {
  }

  lemma ApiWebhooks(t: string)
    ensures "/api/" + ("" + ("webhooks/" + t)) == "/api/webhooks/" + t
  {
  }

  lemma MessageText(channel: Snowflake, message: Snowflake, guild: Option<Snowflake>)
    ensures TextFrom([HTTPS, "", "discord.com", "/channels/", GuildPart(guild), "/", Decimal(channel), "/", Decimal(message)], 0)
         == MakeMessageLink(channel, message, guild)
  {
    var dg, dc, dm := GuildPart(guild), Decimal(channel), Decimal(message);
    TextAll9(HTTPS, "", "discord.com", "/channels/", dg, "/", dc, "/", dm);
    BaseUrl();
    Regroup(HTTPS, "discord.com", "/channels/", dg, "/", dc, "/", dm);
  }

  lemma WebhookText(webhook: Snowflake, token: string)
    ensures TextFrom([HTTPS, "", "discord.com", "/api/", "", "webhooks/", Decimal(webhook), "/", token], 0)
         == MakeWebhookLink(webhook, token)
  {
    var dw := Decimal(webhook);
    TextAll9(HTTPS, "", "discord.com", "/api/", "", "webhooks/", dw, "/", token);
    BaseUrl();
    ApiWebhooks(dw + ("/" + token));
    Regroup(HTTPS, "discord.com", "/api/webhooks/", dw, "/", token, "", "");
  }

  lemma TextAll9(a: string, b: string, c: string, d: string, e: string, f: string, g: string, h: string, i: string)
    requires b == ""
    ensures TextFrom([a, b, c, d, e, f, g, h, i], 0) == a + ("" + (c + (d + (e + (f + (g + (h + i)))))))
  {
    Text9(a, b, c, d, e, f, g, h, i);
  }

  // ---------------------------------------------------------------------
  // Reading built links back
  // ---------------------------------------------------------------------

  /** A text the pattern matches whole is its own match and full match. */
  lemma MatchWhole(p: seq<Piece>, s: string, groups: seq<string>)
    requires |p| > 0 && p[0] == Lit(HTTPS)
    requires Exec(p, 0, s) == Some((|s| as nat, groups))
    ensures MatchOf(p, s) == Some(Match(s, groups))
  {
    assert s[..|s|] == s;
  }

  /** No character of the three classes is whitespace. */
  lemma ClassNotSpace(cls: CharClass, c: char)
    requires In(cls, c)
    ensures !IsSpace(c)
  {
  }

  /** `from_link` strips whitespace from around a link and reads what the
    * pattern matched whole: the link built from its groups. */
  lemma {:induction false} FromLinkPadded(kind: Kind, pre: string, s: string, post: string, groups: seq<string>)
    requires forall i :: 0 <= i < |pre| ==> IsSpace(pre[i])
    requires forall i :: 0 <= i < |post| ==> IsSpace(post[i])
    requires MatchStart(kind, s) == Some(Match(s, groups)) && !IsSpace(s[|s| - 1])
    ensures Shaped(kind, Match(s, groups))
    ensures FromLink(kind, pre + s + post) == Success(FromMatch(kind, Match(s, groups)))
    ensures FromLinkAsWritten(kind, pre + s + post) == Success(FromMatchAsWritten(kind, Match(s, groups)))
  {
    assert HTTPS <= s;
    assert s[0] == 'h';
    StripPadded(pre, s, post);
  }

  /** An invite link built from a code parses back to that code, whatever
    * whitespace surrounds it. */
  lemma InviteRoundTrip(code: string, pre: string, post: string)
    requires code != [] && AllIn(Word, code)
    requires forall i :: 0 <= i < |pre| ==> IsSpace(pre[i])
    requires forall i :: 0 <= i < |post| ==> IsSpace(post[i])
    ensures FromLink(InviteKind, pre + MakeInviteLink(code) + post) == Success(InviteLink(code))
  {
    var s := MakeInviteLink(code);
    ExecInvite(code);
    MatchWhole(INVITE_PATTERN, s, [code]);
    assert s[|s| - 1] == code[|code| - 1];
    ClassNotSpace(Word, code[|code| - 1]);
    FromLinkPadded(InviteKind, pre, s, post, [code]);
  }

  /** A template link built from a code parses back to that code, and
    * `str()` of the result writes the link again. */
  lemma TemplateRoundTrip(code: string, pre: string, post: string)
    requires code != [] && AllIn(Word, code)
    requires forall i :: 0 <= i < |pre| ==> IsSpace(pre[i])
    requires forall i :: 0 <= i < |post| ==> IsSpace(post[i])
    ensures FromLink(TemplateKind, pre + MakeTemplateLink(code) + post) == Success(TemplateLink(code))
    ensures ToString(TemplateLink(code)) == MakeTemplateLink(code)
  {
    var s := MakeTemplateLink(code);
    ExecTemplate(code);
    MatchWhole(TEMPLATE_PATTERN, s, [code]);
    assert s[|s| - 1] == code[|code| - 1];
    ClassNotSpace(Word, code[|code| - 1]);
    FromLinkPadded(TemplateKind, pre, s, post, [code]);
  }

  /** `str()` of a message link parses back to the same link: "@me" reads
    * as a DM and every id reads back as itself. */
  lemma MessageRoundTrip(l: Link, pre: string, post: string)
    requires l.MessageLink?
    requires forall i :: 0 <= i < |pre| ==> IsSpace(pre[i])
    requires forall i :: 0 <= i < |post| ==> IsSpace(post[i])
    ensures FromLink(MessageKind, pre + ToString(l) + post) == Success(l)
  {
    var s := ToString(l);
    var dg, dc, dm := GuildPart(l.guildId), Decimal(l.channelId), Decimal(l.messageId);
    ExecMessage(l.channelId, l.messageId, l.guildId);
    MatchWhole(MESSAGE_PATTERN, s, [dg, dc, dm]);
    assert s == MakeMessageLink(l.channelId, l.messageId, l.guildId);
    assert s[|s| - 1] == dm[|dm| - 1] by {
      Regroup(BASE_URL, "/channels/", dg, "/", dc, "/", dm, "");
    }
    ClassNotSpace(Digit, dm[|dm| - 1]);
    FromLinkPadded(MessageKind, pre, s, post, [dg, dc, dm]);
    DecimalRoundTrip(l.channelId);
    DecimalRoundTrip(l.messageId);
    if l.guildId.Some? {
      DecimalRoundTrip(l.guildId.value);
      assert dg[0] != '@';
    }
  }

  /** A webhook link built from an id and a token parses back to them. */
  lemma WebhookRoundTrip(webhook: Snowflake, token: string, pre: string, post: string)
    requires token != [] && AllIn(Token, token)
    requires forall i :: 0 <= i < |pre| ==> IsSpace(pre[i])
    requires forall i :: 0 <= i < |post| ==> IsSpace(post[i])
    ensures FromLink(WebhookKind, pre + MakeWebhookLink(webhook, token) + post) == Success(WebhookLink(webhook, token))
    ensures ToString(WebhookLink(webhook, token)) == MakeWebhookLink(webhook, token)
  {
    var s := MakeWebhookLink(webhook, token);
    ExecWebhook(webhook, token);
    MatchWhole(WEBHOOK_PATTERN, s, [Decimal(webhook), token]);
    assert s[|s| - 1] == token[|token| - 1];
    ClassNotSpace(Token, token[|token| - 1]);
    FromLinkPadded(WebhookKind, pre, s, post, [Decimal(webhook), token]);
    DecimalRoundTrip(webhook);
  }

  /** As written, an invite link read from a built link keeps the whole
    * link as its code, not the code it was built from. */
  lemma InviteCodeAsWritten(code: string)
    requires code != [] && AllIn(Word, code)
    ensures FromLinkAsWritten(InviteKind, MakeInviteLink(code)) == Success(InviteLink(MakeInviteLink(code)))
    ensures MakeInviteLink(code) != code
  {
    var s := MakeInviteLink(code);
    ExecInvite(code);
    MatchWhole(INVITE_PATTERN, s, [code]);
    assert s[|s| - 1] == code[|code| - 1];
    ClassNotSpace(Word, code[|code| - 1]);
    FromLinkPadded(InviteKind, [], s, [], [code]);
    assert [] + s + [] == s;
    assert |s| > |code|;
  }

  /** As written, a template link read from a built link keeps the whole
    * link as its code, so `str()` of it no longer gives the link back. */
  lemma TemplateStrAsWritten(code: string)
    requires code != [] && AllIn(Word, code)
    ensures FromLinkAsWritten(TemplateKind, MakeTemplateLink(code)) == Success(TemplateLink(MakeTemplateLink(code)))
    ensures ToString(TemplateLink(MakeTemplateLink(code))) != MakeTemplateLink(code)
  {
    var s := MakeTemplateLink(code);
    ExecTemplate(code);
    MatchWhole(TEMPLATE_PATTERN, s, [code]);
    assert s[|s| - 1] == code[|code| - 1];
    ClassNotSpace(Word, code[|code| - 1]);
    FromLinkPadded(TemplateKind, [], s, [], [code]);
    assert [] + s + [] == s;
    assert |ToString(TemplateLink(s))| > |s|;
  }

  /** Only "https://" links are read: anything else is a `ValueError`. */
  lemma FromLinkNeedsHttps(kind: Kind, link: string)
    requires !(HTTPS <= Strip(link))
    ensures FromLink(kind, link) == Failure(ValueError(NO_MATCH))
  {
  }

  // ---------------------------------------------------------------------
  // Finding links in text
  // ---------------------------------------------------------------------

  /** The scan finds nothing exactly when no position holds a match. */
  lemma {:induction false} FindFromNone(kind: Kind, ms: seq<Option<Match>>, i: nat, asWritten: bool)
    requires Scannable(kind, ms) && i <= |ms|
    ensures FindFrom(kind, ms, i, asWritten) == [] <==> forall j :: i <= j < |ms| ==> ms[j].None?
    decreases |ms| - i
  {
    if i < |ms| {
      if ms[i].Some? {
        assert FindFrom(kind, ms, i, asWritten) ==
          [Build(kind, ms[i].value, asWritten)] + FindFrom(kind, ms, i + |ms[i].value.whole|, asWritten);
      } else {
        FindFromNone(kind, ms, i + 1, asWritten);
        assert FindFrom(kind, ms, i, asWritten) == FindFrom(kind, ms, i + 1, asWritten);
      }
    }
  }

  /** `find` gives nothing exactly when no position of the text starts a
    * link. */
  lemma FindNone(kind: Kind, content: string, asWritten: bool)
    ensures Find(kind, content, asWritten).None? <==>
      forall j :: 0 <= j < |content| ==> MatchStart(kind, content[j..]).None?
  {
    FindFromNone(kind, MatchesIn(kind, content), 0, asWritten);
  }

  /** The first link the scan yields is read from the leftmost position
    * that holds a match. */
  lemma {:induction false} FindFromLeftmost(kind: Kind, ms: seq<Option<Match>>, i: nat, asWritten: bool)
    returns (j: nat)
    requires Scannable(kind, ms) && i <= |ms| && FindFrom(kind, ms, i, asWritten) != []
    ensures i <= j < |ms| && ms[j].Some?
    ensures forall q :: i <= q < j ==> ms[q].None?
    ensures FindFrom(kind, ms, i, asWritten)[0] == Build(kind, ms[j].value, asWritten)
    decreases |ms| - i
  {
    if ms[i].Some? {
      assert FindFrom(kind, ms, i, asWritten) ==
        [Build(kind, ms[i].value, asWritten)] + FindFrom(kind, ms, i + |ms[i].value.whole|, asWritten);
      j := i;
    } else {
      assert FindFrom(kind, ms, i, asWritten) == FindFrom(kind, ms, i + 1, asWritten);
      j := FindFromLeftmost(kind, ms, i + 1, asWritten);
    }
  }

  /** `find` gives the link at the leftmost position that starts one. */
  lemma FindLeftmost(kind: Kind, content: string, asWritten: bool) returns (j: nat)
    requires Find(kind, content, asWritten).Some?
    ensures j < |content| && MatchStart(kind, content[j..]).Some?
    ensures forall q :: 0 <= q < j ==> MatchStart(kind, content[q..]).None?
    ensures Find(kind, content, asWritten).value == Build(kind, MatchStart(kind, content[j..]).value, asWritten)
  {
    j := FindFromLeftmost(kind, MatchesIn(kind, content), 0, asWritten);
  }

  /** A text that is one whole link holds exactly that link. */
  lemma FindIterWhole(kind: Kind, s: string, groups: seq<string>, asWritten: bool)
    requires MatchStart(kind, s) == Some(Match(s, groups))
    ensures Shaped(kind, Match(s, groups))
    ensures FindIter(kind, s, asWritten) == [Build(kind, Match(s, groups), asWritten)]
    ensures Find(kind, s, asWritten) == Some(Build(kind, Match(s, groups), asWritten))
  {
    var ms := MatchesIn(kind, s);
    assert s != [] && s[0..] == s;
    assert ms[0] == Some(Match(s, groups));
    assert FindFrom(kind, ms, |s|, asWritten) == [];
  }

  /** As written, `find_iter` over a built invite link yields an invite
    * whose code is the whole link; as intended, the code it was built
    * from. */
  lemma FindInvite(code: string)
    requires code != [] && AllIn(Word, code)
    ensures FindIter(InviteKind, MakeInviteLink(code), true) == [InviteLink(MakeInviteLink(code))]
    ensures FindIter(InviteKind, MakeInviteLink(code), false) == [InviteLink(code)]
  {
    var s := MakeInviteLink(code);
    ExecInvite(code);
    MatchWhole(INVITE_PATTERN, s, [code]);
    FindIterWhole(InviteKind, s, [code], true);
    FindIterWhole(InviteKind, s, [code], false);
  }

  /** `find_iter` over a built message link yields that link. */
  lemma FindMessage(l: Link)
    requires l.MessageLink?
    ensures FindIter(MessageKind, ToString(l), false) == [l]
    ensures FindIter(MessageKind, ToString(l), true) == [l]
  {
    var s := ToString(l);
    var dg, dc, dm := GuildPart(l.guildId), Decimal(l.channelId), Decimal(l.messageId);
    ExecMessage(l.channelId, l.messageId, l.guildId);
    MatchWhole(MESSAGE_PATTERN, s, [dg, dc, dm]);
    FindIterWhole(MessageKind, s, [dg, dc, dm], false);
    FindIterWhole(MessageKind, s, [dg, dc, dm], true);
    DecimalRoundTrip(l.channelId);
    DecimalRoundTrip(l.messageId);
    if l.guildId.Some? {
      DecimalRoundTrip(l.guildId.value);
      assert dg[0] != '@';
    }
  }
}
