/**
 The language of legacy options, apart from the validator that walks a list: which option at an index
 is accepted, word for word, and that everything the language can say is accepted and understood.
 */
module LegacyGrammar {
  import opened Bytes
  import opened LegacyArgs

  // ---- words ----

  /** The words for a download mode. */
  function ModeWords(mode: DownloadMode): (words: set<string>)
    ensures words != {}
  {
    match mode
    case All => {"all"}
    case VideoOnly => {"video"}
    case AudioOnly => {"audio"}
    case SubtitleOnly => {"subtitle", "subtitles"}
    case DanmakuOnly => {"danmaku"}
    case CoverOnly => {"cover"}
  }

  function BoolWords(value: bool): set<string> { if value then {"true", "1"} else {"false", "0"} }

  /** A text names a mode exactly when it is one of its words, up to case and surrounding space. */
  lemma ModeExactly(text: string, mode: DownloadMode)
    ensures ParseDownloadMode(text) == Some(mode) <==> Lower(Trim(text)) in ModeWords(mode)
  {
    hide Trim;
  }

  /** A text is a truth value exactly when it is one of its words, up to case. */
  lemma BoolExactly(text: string, value: bool)
    ensures ParseBool(text) == Some(value) <==> Lower(text) in BoolWords(value)
  {
  }

  function Decimal(n: nat): (r: string)
    ensures r != "" && AllDecimal(r)
  {
    if n < 10 then [(48 + n) as char] else Decimal(n / 10) + [(48 + n % 10) as char]
  }

  lemma {:induction false} DecimalValue(n: nat)
    ensures NumberValue(Decimal(n)) == n
  {
    if n >= 10 {
      DecimalValue(n / 10);
      assert Decimal(n)[..|Decimal(n)| - 1] == Decimal(n / 10);
    } else {
      assert Decimal(n)[..0] == "";
    }
  }

  lemma DecimalTrimmed(n: nat)
    ensures Trim(Decimal(n)) == Decimal(n) && Decimal(n)[0] != '+'
  {
    var s := Decimal(n);
    assert '0' <= s[0] <= '9' && '0' <= s[|s| - 1] <= '9';
  }

  /** A number of seconds is accepted exactly when it is positive and fits 64 bits. */
  lemma TimeoutExactly(n: nat)
    ensures IsTimeout(Decimal(n)) <==> 0 < n <= U64_MAX
  {
    hide Trim, NumberValue, Decimal;
    DecimalTrimmed(n);
    DecimalValue(n);
  }

  /** A list of pieces, written with commas between them. */
  function Joined(pieces: seq<string>): string
    requires pieces != []
  {
    if |pieces| == 1 then pieces[0] else pieces[0] + "," + Joined(pieces[1..])
  }

  lemma {:induction false} SplitJoined(pieces: seq<string>)
    requires pieces != [] && forall i :: 0 <= i < |pieces| ==> ',' !in pieces[i]
    ensures SplitComma(Joined(pieces)) == pieces
    decreases |pieces|
  {
    var whole := Joined(pieces);
    FindAfter(pieces[0], if |pieces| == 1 then "" else "," + Joined(pieces[1..]));
    if |pieces| == 1 {
      assert whole + "" == whole;
    } else {
      SplitJoined(pieces[1..]);
      assert whole == pieces[0] + ("," + Joined(pieces[1..]));
      assert whole[|pieces[0]| + 1..] == Joined(pieces[1..]);
    }
  }

  lemma {:induction false} FindAfter(s: string, rest: string)
    requires ',' !in s && (rest == "" || rest[0] == ',')
    ensures Find(s + rest, ',') == |s|
  {
    if s == "" {
      assert s + rest == rest;
    } else {
      assert (s + rest)[1..] == s[1..] + rest;
      FindAfter(s[1..], rest);
    }
  }

  /** What each kind of flag takes; a proxy list may hold blank pieces, and every other piece must be valid. */
  lemma ValuesExactly(urls: Urls, flag: string, value: string)
    ensures flag == "--playurl-mode" ==>
              (IsGlobalValue(urls, flag, value) <==>
                 Trim(value) == "web" || Trim(value) == "tv" || Trim(value) == "app")
    ensures flag == "--restricted-area" ==>
              (IsGlobalValue(urls, flag, value) <==>
                 var area := Lower(Trim(value)); area == "cn" || area == "th" || area == "hk" || area == "tw")
    ensures flag == "--request-timeout-seconds" ==> (IsGlobalValue(urls, flag, value) <==> IsTimeout(value))
    ensures flag in ENDPOINT_FLAGS ==>
              (IsGlobalValue(urls, flag, value) <==> Trim(value) != "" && urls.endpoint(Trim(value)))
  {
    hide Trim, IsTimeout, IsProxyList;
    if flag in ENDPOINT_FLAGS { EndpointsAreBases(flag); }
  }

  lemma EndpointsAreBases(flag: string)
    requires flag in ENDPOINT_FLAGS
    ensures |flag| >= 5 && flag[|flag| - 5..] == "-base"
  {
  }

  lemma ProxiesExactly(urls: Urls, flag: string, pieces: seq<string>)
    requires flag == "--restricted-area-proxy" || flag == "--restricted-api-proxy"
    requires pieces != [] && forall i :: 0 <= i < |pieces| ==> ',' !in pieces[i]
    ensures IsGlobalValue(urls, flag, Joined(pieces)) <==>
              forall i :: 0 <= i < |pieces| ==> Trim(pieces[i]) == "" || IsProxySpec(urls, pieces[i])
  {
    hide Trim, IsProxySpec, SplitComma, Joined, IsTimeout;
    SplitJoined(pieces);
    if flag in ENDPOINT_FLAGS { EndpointsAreBases(flag); }
    ProxyFlags();
  }

  lemma ProxyFlags()
    ensures AREA_PROXY[|AREA_PROXY| - 1] == 'y' && API_PROXY[|API_PROXY| - 1] == 'y'
    ensures AREA_PROXY != PLAYURL_MODE && AREA_PROXY != AREA && API_PROXY != PLAYURL_MODE && API_PROXY != AREA
  {
    assert |AREA_PROXY| == 23 && |API_PROXY| == 22 && |AREA| == 17 && |PLAYURL_MODE| == 14;
  }

  // ---- one option, word for word ----

  predicate Acceptable(rules: Rules, flag: string, value: string) {
    && Trim(value) != ""
    && if flag == ONLY then rules.downloadModes && ParseDownloadMode(value).Some?
       else flag in GLOBAL_FLAGS && rules.globalOptions && IsGlobalValue(rules.urls, flag, value)
  }

  lemma ValueMatches(args: seq<string>, index: nat, flag: string, value: string, next: nat)
    requires index < |args| && Written(args, index, flag, value, next)
    ensures MatchesValueFlag(args[index], flag)
  {
    var arg := args[index];
    if arg != flag {
      assert arg[..|flag|] == flag && arg[|flag|..] == "=" + value;
      assert ("=" + value)[..1] == "=";
    }
  }

  lemma OneFlagMatches(arg: string, flag: string, other: string)
    requires ValueFlag(flag) && ValueFlag(other) && MatchesValueFlag(arg, flag) && MatchesValueFlag(arg, other)
    ensures flag == other
  {
    hide ValueFlag;
    FlagIsPlain(flag);
    FlagIsPlain(other);
    MatchLabel(arg, flag);
    MatchLabel(arg, other);
  }

  lemma MatchLabel(arg: string, flag: string)
    requires PlainName(flag) && MatchesValueFlag(arg, flag)
    ensures Label(arg) == flag
  {
    hide PlainName;
    if arg == flag { WholeBegins(arg); } else { NextChar(arg, |flag|, "="); }
    LabelIs(arg, flag);
  }

  lemma WrittenTaken(args: seq<string>, index: nat, flag: string, value: string, next: nat)
    requires index < |args| && Written(args, index, flag, value, next) && Trim(value) != ""
    ensures ValueToken(args, index, flag) == Some((Value(flag, value), next))
  {
    hide Trim;
    ValueMatches(args, index, flag, value, next);
    var arg := args[index];
    if arg != flag { assert arg[|flag| + 1..] == value; }
  }

  lemma FindIsIt(arg: string, flag: string)
    requires ValueFlag(flag) && MatchesValueFlag(arg, flag)
    ensures FindFlag(GLOBAL_FLAGS, arg) == if flag in GLOBAL_FLAGS then Some(flag) else None
  {
    hide MatchesValueFlag;
    FlagFound(GLOBAL_FLAGS, arg);
    var found := FindFlag(GLOBAL_FLAGS, arg);
    if found.Some? { OneFlagMatches(arg, flag, found.value); }
  }

  lemma WrittenIsToken(rules: Rules, args: seq<string>, index: nat, flag: string, value: string, next: nat)
    requires index < |args| && Acceptable(rules, flag, value) && Written(args, index, flag, value, next)
    ensures TokenAt(rules, args, index) == Some((Value(flag, value), next))
  {
    hide ValueToken, MatchesValueFlag, Written, Trim, IsGlobalValue, ParseDownloadMode, FindFlag, SwitchToken;
    OnlyIsNotGlobal();
    ValueMatches(args, index, flag, value, next);
    WrittenTaken(args, index, flag, value, next);
    FindIsIt(args[index], flag);
  }

  /** A value is accepted exactly when it is written for a flag that takes it. */
  lemma ValueExactly(rules: Rules, args: seq<string>, index: nat, flag: string, value: string, next: nat)
    requires index < |args|
    ensures TokenAt(rules, args, index) == Some((Value(flag, value), next)) <==>
              Acceptable(rules, flag, value) && Written(args, index, flag, value, next)
  {
    hide Acceptable, Written, TokenAt;
    if Acceptable(rules, flag, value) && Written(args, index, flag, value, next) {
      WrittenIsToken(rules, args, index, flag, value, next);
    }
    if TokenAt(rules, args, index) == Some((Value(flag, value), next)) {
      TokenIsWritten(rules, args, index, flag, value, next);
    }
  }

  lemma TokenIsWritten(rules: Rules, args: seq<string>, index: nat, flag: string, value: string, next: nat)
    requires index < |args| && TokenAt(rules, args, index) == Some((Value(flag, value), next))
    ensures Acceptable(rules, flag, value) && Written(args, index, flag, value, next)
  {
    hide MatchesValueFlag, Written, Trim, IsGlobalValue, ParseDownloadMode, ValueToken, LegacyArgValue, IsSwitch;
    OnlyIsNotGlobal();
    FlagFound(GLOBAL_FLAGS, args[index]);
    var token, found := ValueToken(args, index, flag), FindFlag(GLOBAL_FLAGS, args[index]);
    if rules.globalOptions && found.Some? {
      TakenIsValue(args, index, found.value);
      ValueTokenWritten(args, index, found.value);
    } else {
      TakenIsValue(args, index, ONLY);
      SwitchIsMode(args, index);
      ValueTokenWritten(args, index, ONLY);
    }
  }

  lemma SwitchIsMode(args: seq<string>, index: nat)
    requires index < |args|
    ensures SwitchToken(args, index).Some? ==> SwitchToken(args, index).value.0.Mode?
  {
    hide Label, ParseBool;
  }

  lemma TakenIsValue(args: seq<string>, index: nat, flag: string)
    requires index < |args|
    ensures ValueToken(args, index, flag).Some? ==>
              && ValueToken(args, index, flag).value.0.Value? && ValueToken(args, index, flag).value.0.flag == flag
              && Trim(ValueToken(args, index, flag).value.0.value) != ""
  {
    hide Trim, LegacyArgValue;
  }

  // ---- switches ----

  lemma FormMatches(args: seq<string>, index: nat, name: string, enabled: bool, next: nat)
    requires index < |args| && SwitchForm(args, index, name, enabled, next)
    ensures MatchesBooleanFlag(args[index], name)
  {
    hide ParseBool;
    var arg := args[index];
    if arg != name {
      assert arg[|name|..][..1] == [arg[|name|]];
    }
  }

  lemma SwitchMatchesNoFlag(arg: string, name: string, flag: string)
    requires PlainName(name) && |name| == |AUDIO_ONLY| && Label(arg) == name && ValueFlag(flag)
    ensures !MatchesValueFlag(arg, flag)
  {
    hide ValueFlag, MatchesValueFlag;
    FlagIsPlain(flag);
    if MatchesValueFlag(arg, flag) { MatchLabel(arg, flag); }
  }

  lemma SwitchIsTaken(args: seq<string>, index: nat, name: string, target: DownloadMode, enabled: bool, next: nat)
    requires index < |args| && SwitchForm(args, index, name, enabled, next)
    requires || (name == AUDIO_ONLY && target == AudioOnly)
             || (name == VIDEO_ONLY && target == VideoOnly && name != AUDIO_ONLY)
    requires var arg := args[index];
             Label(arg) == name && Begins(arg, name) && (arg != name ==> |arg| > |name| && IsSeparator(arg[|name|]))
    ensures SwitchToken(args, index) == Some((Mode(DirectiveFor(target, enabled)), next))
  {
    hide ParseBool, Begins, Label;
    TrueParses();
    assert |AUDIO_ONLY| == |VIDEO_ONLY| == |name|;
  }

  lemma FormIsToken(rules: Rules, args: seq<string>, index: nat, name: string, target: DownloadMode, enabled: bool,
                    next: nat)
    requires index < |args| && rules.downloadModes && SwitchForm(args, index, name, enabled, next)
    requires (name == AUDIO_ONLY && target == AudioOnly) || (name == VIDEO_ONLY && target == VideoOnly)
    ensures TokenAt(rules, args, index) == Some((Mode(DirectiveFor(target, enabled)), next))
  {
    hide SwitchForm, MatchesValueFlag, Begins, Label, PlainName, SwitchToken, MatchesBooleanFlag;
    SwitchIsPlain();
    SwitchNamesDiffer();
    FormMatches(args, index, name, enabled, next);
    SwitchLabel(args[index], name);
    SwitchIsTaken(args, index, name, target, enabled, next);
    FlagFound(GLOBAL_FLAGS, args[index]);
    var found := FindFlag(GLOBAL_FLAGS, args[index]);
    if found.Some? { SwitchMatchesNoFlag(args[index], name, found.value); }
    SwitchMatchesNoFlag(args[index], name, ONLY);
  }

  lemma SwitchNamesDiffer()
    ensures AUDIO_ONLY != VIDEO_ONLY && |AUDIO_ONLY| == |VIDEO_ONLY|
  {
    assert AUDIO_ONLY[2] == 'a' && VIDEO_ONLY[2] == 'v';
  }

  lemma TokenAtNext(rules: Rules, args: seq<string>, index: nat, directive: Directive, next: nat)
    requires index < |args| && TokenAt(rules, args, index) == Some((Mode(directive), next))
    ensures rules.downloadModes && SwitchWritten(args, index, directive, next)
  {
    hide SwitchWritten, ValueToken, MatchesValueFlag, IsSwitch, SwitchToken, IsGlobalValue, ParseDownloadMode, FindFlag;
    TakenIsValue(args, index, ONLY);
    var found := FindFlag(GLOBAL_FLAGS, args[index]);
    if found.Some? { TakenIsValue(args, index, found.value); }
    SwitchTokenSays(rules, args, index);
  }

  /** A directive is accepted exactly when it is written as a switch. */
  lemma SwitchExactly(rules: Rules, args: seq<string>, index: nat, directive: Directive, next: nat)
    requires index < |args|
    ensures TokenAt(rules, args, index) == Some((Mode(directive), next)) <==>
              rules.downloadModes && SwitchWritten(args, index, directive, next)
  {
    hide TokenAt, SwitchForm;
    if TokenAt(rules, args, index) == Some((Mode(directive), next)) {
      TokenAtNext(rules, args, index, directive, next);
    }
    if rules.downloadModes && SwitchWritten(args, index, directive, next) {
      var name, target, enabled :| ((name == AUDIO_ONLY && target == AudioOnly)
                                    || (name == VIDEO_ONLY && target == VideoOnly))
                                   && directive == DirectiveFor(target, enabled)
                                   && SwitchForm(args, index, name, enabled, next);
      FormIsToken(rules, args, index, name, target, enabled, next);
    }
  }

  // ---- everything that can be said is understood ----

  /** The rules allow this option. */
  predicate Sayable(rules: Rules, token: Token) {
    match token
    case Value(flag, value) => Acceptable(rules, flag, value)
    case Mode(directive) => rules.downloadModes && directive.mode in {AudioOnly, VideoOnly}
  }

  /** One way to write an option. */
  function Say(token: Token): (r: seq<string>)
    ensures r != []
  {
    match token
    case Value(flag, value) => [flag, value]
    case Mode(SetMode(mode)) => [(if mode == AudioOnly then AUDIO_ONLY else VIDEO_ONLY) + "=true"]
    case Mode(ClearMode(mode)) => [(if mode == AudioOnly then AUDIO_ONLY else VIDEO_ONLY) + "=false"]
  }

  function SayAll(tokens: seq<Token>): seq<string> {
    if tokens == [] then [] else Say(tokens[0]) + SayAll(tokens[1..])
  }

  lemma SaidSwitch(args: seq<string>, index: nat, name: string, enabled: bool)
    requires index < |args| && args[index] == name + (if enabled then "=true" else "=false")
    ensures SwitchForm(args, index, name, enabled, index + 1)
  {
    var text := if enabled then "=true" else "=false";
    assert args[index][|name|..] == text && args[index][|name| + 1..] == text[1..];
    assert text[1..] == if enabled then "true" else "false";
    assert Lower(text[1..]) == text[1..];
    assert args[index][..|name|] == name;
  }

  lemma SaidIsToken(rules: Rules, args: seq<string>, index: nat, token: Token)
    requires Sayable(rules, token) && index + |Say(token)| <= |args|
    requires args[index..index + |Say(token)|] == Say(token)
    ensures TokenAt(rules, args, index) == Some((token, index + |Say(token)|))
  {
    hide TokenAt, SwitchForm, Acceptable;
    assert args[index] == args[index..index + |Say(token)|][0];
    match token
    case Value(flag, value) =>
      assert args[index + 1] == args[index..index + 2][1];
      ValueExactly(rules, args, index, flag, value, index + 2);
    case Mode(directive) =>
      var name := if directive.mode == AudioOnly then AUDIO_ONLY else VIDEO_ONLY;
      SaidSwitch(args, index, name, directive.SetMode?);
      assert directive == DirectiveFor(directive.mode, directive.SetMode?);
      FormIsToken(rules, args, index, name, directive.mode, directive.SetMode?, index + 1);
  }

  /**
   Whatever the rules allow to be said is accepted, and means what was said: writing options down and
   validating the list gives the options back.
   */
  lemma {:induction false} SaidIsUnderstood(rules: Rules, before: seq<string>, tokens: seq<Token>)
    requires forall i :: 0 <= i < |tokens| ==> Sayable(rules, tokens[i])
    ensures Tokens(rules, before + SayAll(tokens), |before|) == Some(tokens)
    decreases |tokens|
  {
    hide TokenAt, Sayable, Say;
    var args := before + SayAll(tokens);
    if tokens != [] {
      var said := Say(tokens[0]);
      assert args[|before|..|before| + |said|] == said;
      SaidIsToken(rules, args, |before|, tokens[0]);
      SaidIsUnderstood(rules, before + said, tokens[1..]);
      assert args == before + said + SayAll(tokens[1..]);
      assert [tokens[0]] + tokens[1..] == tokens;
    }
  }

  // ---- the mode in the end ----

  /** The mode an option asks for, if it asks for one. */
  function Asks(token: Token): Option<DownloadMode> {
    match token
    case Mode(SetMode(mode)) => Some(mode)
    case Mode(ClearMode(_)) => None
    case Value(flag, value) => if flag == ONLY then ParseDownloadMode(value) else None
  }

  predicate LastAsking(tokens: seq<Token>, i: nat) {
    i < |tokens| && Asks(tokens[i]).Some? && forall j :: i < j < |tokens| ==> Asks(tokens[j]).None?
  }

  predicate ClearedAfter(tokens: seq<Token>, from: nat, mode: DownloadMode) {
    exists j :: from <= j < |tokens| && tokens[j] == Mode(ClearMode(mode))
  }

  lemma ClearedStep(tokens: seq<Token>, mode: DownloadMode)
    requires tokens != []
    ensures ClearedAfter(tokens, 0, mode) <==> tokens[0] == Mode(ClearMode(mode)) || ClearedAfter(tokens[1..], 0, mode)
  {
    var rest := tokens[1..];
    if j :| 0 <= j < |tokens| && tokens[j] == Mode(ClearMode(mode)) {
      if j > 0 { assert rest[j - 1] == tokens[j]; }
    }
    if j :| 0 <= j < |rest| && rest[j] == Mode(ClearMode(mode)) { assert tokens[j + 1] == rest[j]; }
  }

  /** Switching off a mode only matters when it is the mode in force, and leaves all kinds of files. */
  lemma {:induction false} OnlyCleared(tokens: seq<Token>, mode: DownloadMode)
    requires forall j :: 0 <= j < |tokens| ==> Asks(tokens[j]).None?
    ensures ModeOf(tokens, mode) == if ClearedAfter(tokens, 0, mode) then All else mode
  {
    hide ParseDownloadMode;
    if tokens != [] {
      ClearedStep(tokens, mode);
      OnlyCleared(tokens[1..], ModeAfter(tokens[0], mode));
    }
  }

  /** The last option that asks for a mode wins, unless that mode is switched off after it. */
  lemma {:induction false} LastAskingWins(tokens: seq<Token>, mode: DownloadMode, i: nat)
    requires LastAsking(tokens, i)
    ensures var asked := Asks(tokens[i]).value;
            ModeOf(tokens, mode) == if ClearedAfter(tokens, i + 1, asked) then All else asked
    decreases i
  {
    hide ParseDownloadMode, Asks;
    var rest := tokens[1..];
    if i == 0 {
      AskedIsNext(tokens[0], mode);
      var asked := Asks(tokens[0]).value;
      OnlyCleared(rest, asked);
      ClearedShift(tokens, 1, asked);
    } else {
      assert LastAsking(rest, i - 1);
      LastAskingWins(rest, ModeAfter(tokens[0], mode), i - 1);
      ClearedShift(tokens, i + 1, Asks(tokens[i]).value);
    }
  }

  lemma AskedIsNext(token: Token, mode: DownloadMode)
    requires Asks(token).Some?
    ensures ModeAfter(token, mode) == Asks(token).value
  {
    hide ParseDownloadMode;
  }

  lemma ClearedShift(tokens: seq<Token>, from: nat, mode: DownloadMode)
    requires 0 < from <= |tokens|
    ensures ClearedAfter(tokens, from, mode) <==> ClearedAfter(tokens[1..], from - 1, mode)
  {
    var rest := tokens[1..];
    if j :| from <= j < |tokens| && tokens[j] == Mode(ClearMode(mode)) { assert rest[j - 1] == tokens[j]; }
    if j :| from - 1 <= j < |rest| && rest[j] == Mode(ClearMode(mode)) { assert tokens[j + 1] == rest[j]; }
  }
}
