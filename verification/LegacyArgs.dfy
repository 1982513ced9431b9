/**
 Legacy command-line options of the Bilibili downloader: one validator that walks a list option by
 option, and two later readers that walk the same list without knowing which strings are values.
 */
module LegacyArgs {
  import opened Bytes

  const ONLY: string := "--only"
  const AUDIO_ONLY: string := "--audio-only"
  const VIDEO_ONLY: string := "--video-only"
  const ENDPOINT_FLAGS: seq<string> := [
    "--api-base", "--pgc-base", "--intl-base", "--comment-base", "--passport-base", "--tv-api-base",
    "--tv-passport-base", "--tv-passport-poll-base", "--app-grpc-base", "--app-pgc-grpc-base"
  ]
  const PLAYURL_MODE: string := "--playurl-mode"
  const AREA: string := "--restricted-area"
  const AREA_PROXY: string := "--restricted-area-proxy"
  const API_PROXY: string := "--restricted-api-proxy"
  const TIMEOUT: string := "--request-timeout-seconds"
  const GLOBAL_FLAGS: seq<string> := ENDPOINT_FLAGS + [PLAYURL_MODE, AREA, AREA_PROXY, API_PROXY, TIMEOUT]

  datatype DownloadMode = All | VideoOnly | AudioOnly | SubtitleOnly | DanmakuOnly | CoverOnly

  /** Which URLs the URL library accepts as an endpoint base and as a proxy base. */
  datatype Urls = Urls(endpoint: string -> bool, proxy: string -> bool)

  datatype Rules = Rules(urls: Urls, downloadModes: bool, globalOptions: bool)

  // ---- text ----

  function TrimStart(s: string): string { if s != "" && IsWhitespace(s[0]) then TrimStart(s[1..]) else s }

  function TrimEnd(s: string): string { if s != "" && IsWhitespace(s[|s| - 1]) then TrimEnd(s[..|s| - 1]) else s }

  function Trim(s: string): string { TrimEnd(TrimStart(s)) }

  function LowerChar(c: char): char { if 'A' <= c <= 'Z' then (c as int + 32) as char else c }

  function Lower(s: string): (r: string)
    ensures |r| == |s| && forall i :: 0 <= i < |s| ==> r[i] == LowerChar(s[i])
  {
    seq(|s|, i requires 0 <= i < |s| => LowerChar(s[i]))
  }

  predicate Begins(s: string, prefix: string) { |prefix| <= |s| && s[..|prefix|] == prefix }

  predicate Dashed(s: string) { Begins(s, "--") }

  /** Index of the first occurrence, |s| when there is none. */
  function Find(s: string, c: char): (r: nat)
    ensures r <= |s| && c !in s[..r] && (r < |s| ==> s[r] == c)
  {
    if s == "" || s[0] == c then 0
    else
      var r := 1 + Find(s[1..], c);
      assert s[..r] == [s[0]] + s[1..][..r - 1];
      r
  }

  function SplitComma(s: string): (r: seq<string>)
    ensures r != []
    decreases |s|
  {
    var end := Find(s, ',');
    if end == |s| then [s] else [s[..end]] + SplitComma(s[end + 1..])
  }

  // ---- values ----

  function ParseBool(value: string): Option<bool> {
    var lower := Lower(value);
    if lower == "true" || lower == "1" then Some(true)
    else if lower == "false" || lower == "0" then Some(false)
    else None
  }

  function ParseDownloadMode(value: string): Option<DownloadMode> {
    var lower := Lower(Trim(value));
    if lower == "all" then Some(All)
    else if lower == "video" then Some(VideoOnly)
    else if lower == "audio" then Some(AudioOnly)
    else if lower == "subtitle" || lower == "subtitles" then Some(SubtitleOnly)
    else if lower == "danmaku" then Some(DanmakuOnly)
    else if lower == "cover" then Some(CoverOnly)
    else None
  }

  predicate IsArea(value: string) { Lower(Trim(value)) in {"cn", "th", "hk", "tw"} }

  predicate IsPlayurlMode(value: string) { Trim(value) in {"web", "tv", "app"} }

  function NumberValue(s: string): nat {
    if s == "" then 0
    else
      var last := s[|s| - 1];
      10 * NumberValue(s[..|s| - 1]) + (if '0' <= last <= '9' then last as nat - '0' as nat else 0)
  }

  predicate AllDecimal(s: string) { forall i :: 0 <= i < |s| ==> '0' <= s[i] <= '9' }

  predicate IsTimeout(value: string) {
    var trimmed := Trim(value);
    var digits := if Begins(trimmed, "+") then trimmed[1..] else trimmed;
    digits != "" && AllDecimal(digits) && 0 < NumberValue(digits) <= U64_MAX
  }

  predicate IsLetter(c: char) { 'a' <= c <= 'z' || 'A' <= c <= 'Z' }

  /** Starts like "scheme://". */
  predicate StartsWithUrlScheme(s: string) {
    var end := Find(s, ':');
    && Begins(s[end..], "://") && s != "" && IsLetter(s[0])
    && forall i :: 0 <= i < end ==> IsLetter(s[i]) || '0' <= s[i] <= '9' || s[i] in "+-."
  }

  predicate IsProxySpec(urls: Urls, spec: string) {
    var trimmed := Trim(spec);
    var end := Find(trimmed, '=');
    if StartsWithUrlScheme(trimmed) || end == |trimmed| then trimmed != "" && urls.proxy(trimmed)
    else
      var base := Trim(trimmed[end + 1..]);
      IsArea(trimmed[..end]) && base != "" && urls.proxy(base)
  }

  predicate IsProxyList(urls: Urls, value: string) {
    var specs := SplitComma(value);
    forall i :: 0 <= i < |specs| && Trim(specs[i]) != "" ==> IsProxySpec(urls, specs[i])
  }

  predicate IsGlobalValue(urls: Urls, flag: string, value: string) {
    if flag in ENDPOINT_FLAGS then Trim(value) != "" && urls.endpoint(Trim(value))
    else if flag == PLAYURL_MODE then IsPlayurlMode(value)
    else if flag == AREA then IsArea(value)
    else if flag == AREA_PROXY || flag == API_PROXY then IsProxyList(urls, value)
    else IsTimeout(value)
  }

  // ---- one option ----

  predicate MatchesValueFlag(arg: string, flag: string) {
    arg == flag || (Begins(arg, flag) && Begins(arg[|flag|..], "="))
  }

  predicate MatchesBooleanFlag(arg: string, flag: string) {
    arg == flag || (Begins(arg, flag) && (Begins(arg[|flag|..], "=") || Begins(arg[|flag|..], ":")))
  }

  function LegacyArgValue(args: seq<string>, index: nat, flag: string): Option<string>
    requires index < |args|
  {
    var arg := args[index];
    if arg == flag then (if index + 1 < |args| then Some(args[index + 1]) else None)
    else if Begins(arg, flag) && Begins(arg[|flag|..], "=") then Some(arg[|flag| + 1..])
    else None
  }

  function ConsumeValueArg(args: seq<string>, index: nat, flag: string): Option<nat>
    requires index < |args|
  {
    var value := LegacyArgValue(args, index, flag);
    if value.None? || Trim(value.value) == "" then None
    else if args[index] == flag then Some(index + 2)
    else Some(index + 1)
  }

  predicate IsSeparator(c: char) { c == '=' || c == ':' }

  /** The option's name: what stands before the first '=' or ':'. */
  function Label(arg: string): (r: string)
    ensures |r| <= |arg| && arg[..|r|] == r
    ensures forall i :: 0 <= i < |r| ==> !IsSeparator(r[i])
    ensures |r| < |arg| ==> IsSeparator(arg[|r|])
  {
    if arg == "" || IsSeparator(arg[0]) then ""
    else
      var rest := Label(arg[1..]);
      assert arg[..1 + |rest|] == [arg[0]] + arg[1..][..|rest|];
      [arg[0]] + rest
  }

  function ConsumeBooleanArg(args: seq<string>, index: nat): Option<nat>
    requires index < |args|
  {
    var arg := args[index];
    if (arg == AUDIO_ONLY || arg == VIDEO_ONLY) && index + 1 < |args| && ParseBool(args[index + 1]).Some? then
      Some(index + 2)
    else if |Label(arg)| < |arg| && ParseBool(arg[|Label(arg)| + 1..]).None? then None
    else Some(index + 1)
  }

  function FindFlag(flags: seq<string>, arg: string): Option<string> {
    if flags == [] then None
    else if MatchesValueFlag(arg, flags[0]) then Some(flags[0])
    else FindFlag(flags[1..], arg)
  }

  predicate IsSwitch(arg: string) { MatchesBooleanFlag(arg, AUDIO_ONLY) || MatchesBooleanFlag(arg, VIDEO_ONLY) }

  // ---- the validator ----

  method ValidateLegacyArgs(rules: Rules, args: seq<string>) returns (accepted: bool)
    ensures accepted <==> Tokens(rules, args, 0).Some?
  {
    hide MatchesValueFlag, LegacyArgValue, ConsumeValueArg, ConsumeBooleanArg;
    hide FindFlag, IsGlobalValue, ParseDownloadMode, IsSwitch;
    var index := 0;
    while index < |args|
      invariant index <= |args|
      invariant Tokens(rules, args, index).Some? <==> Tokens(rules, args, 0).Some?
    {
      var arg := args[index];
      ConsumedBounds(args, index);
      if rules.globalOptions {
        var flag := FindFlag(GLOBAL_FLAGS, arg);
        if flag.Some? {
          var value := LegacyArgValue(args, index, flag.value);
          if value.None? { return false; }
          var next := ConsumeValueArg(args, index, flag.value);
          if next.None? || !IsGlobalValue(rules.urls, flag.value, value.value) { return false; }
          index := next.value;
          continue;
        }
      }
      if rules.downloadModes && MatchesValueFlag(arg, ONLY) {
        var next := ConsumeValueArg(args, index, ONLY);
        if next.None? { return false; }
        var value := LegacyArgValue(args, index, ONLY);
        if value.None? || ParseDownloadMode(value.value).None? { return false; }
        index := next.value;
        continue;
      }
      if rules.downloadModes && IsSwitch(arg) {
        var next := ConsumeBooleanArg(args, index);
        if next.None? { return false; }
        index := next.value;
        continue;
      }
      return false;
    }
    return true;
  }

  lemma ConsumedBounds(args: seq<string>, index: nat)
    requires index < |args|
    ensures forall flag :: ConsumeValueArg(args, index, flag).Some? ==>
              index < ConsumeValueArg(args, index, flag).value <= |args|
    ensures ConsumeBooleanArg(args, index).Some? ==> index < ConsumeBooleanArg(args, index).value <= |args|
  {
  }

  /** What an accepted option means: a value for a flag, or a download mode switched on or off. */
  datatype Token = Value(flag: string, value: string) | Mode(directive: Directive)

  datatype Directive = SetMode(mode: DownloadMode) | ClearMode(mode: DownloadMode)

  function DirectiveFor(target: DownloadMode, enabled: bool): Directive {
    if enabled then SetMode(target) else ClearMode(target)
  }

  function ValueToken(args: seq<string>, index: nat, flag: string): Option<(Token, nat)>
    requires index < |args|
  {
    var value, next := LegacyArgValue(args, index, flag), ConsumeValueArg(args, index, flag);
    if value.None? || next.None? then None else Some((Value(flag, value.value), next.value))
  }

  function SwitchToken(args: seq<string>, index: nat): Option<(Token, nat)>
    requires index < |args|
  {
    var arg, next := args[index], ConsumeBooleanArg(args, index);
    var target := if Label(arg) == AUDIO_ONLY then AudioOnly else VideoOnly;
    if next.None? then None
    else
      var text := if |Label(arg)| < |arg| then arg[|Label(arg)| + 1..]
                  else if next.value == index + 2 && index + 1 < |args| then args[index + 1] else "true";
      Some((Mode(DirectiveFor(target, ParseBool(text) == Some(true))), next.value))
  }

  /** The option at an index and where the next one starts, if the validator accepts it. */
  function TokenAt(rules: Rules, args: seq<string>, index: nat): (r: Option<(Token, nat)>)
    requires index < |args|
    ensures r.Some? ==> index < r.value.1 <= |args|
  {
    ConsumedBounds(args, index);
    var arg := args[index];
    var global := if rules.globalOptions then FindFlag(GLOBAL_FLAGS, arg) else None;
    if global.Some? then
      var token := ValueToken(args, index, global.value);
      if token.Some? && IsGlobalValue(rules.urls, global.value, token.value.0.value) then token else None
    else if rules.downloadModes && MatchesValueFlag(arg, ONLY) then
      var token := ValueToken(args, index, ONLY);
      if token.Some? && ParseDownloadMode(token.value.0.value).Some? then token else None
    else if rules.downloadModes && IsSwitch(arg) then SwitchToken(args, index)
    else None
  }

  /** The options of a list from an index on, if the validator accepts them all. */
  function Tokens(rules: Rules, args: seq<string>, index: nat): Option<seq<Token>>
    requires index <= |args|
    decreases |args| - index
  {
    if index == |args| then Some([])
    else
      var token := TokenAt(rules, args, index);
      if token.None? then None
      else
        var rest := Tokens(rules, args, token.value.1);
        if rest.None? then None else Some([token.value.0] + rest.value)
  }

  // ---- the later readers ----

  function AfterFlag(arg: string, flag: string): string
    requires Begins(arg, flag + "=")
  {
    arg[|flag| + 1..]
  }

  function ArgValues(args: seq<string>, flag: string, index: nat): seq<string>
    requires index <= |args|
    decreases |args| - index
  {
    if index == |args| then []
    else if args[index] == flag && index + 1 < |args| then [args[index + 1]] + ArgValues(args, flag, index + 2)
    else
      (if Begins(args[index], flag + "=") then [AfterFlag(args[index], flag)] else [])
      + ArgValues(args, flag, index + 1)
  }

  method CollectArgValues(args: seq<string>, flag: string) returns (values: seq<string>)
    ensures values == ArgValues(args, flag, 0)
  {
    hide Begins;
    values := [];
    var index := 0;
    while index < |args|
      invariant index <= |args|
      invariant values + ArgValues(args, flag, index) == ArgValues(args, flag, 0)
    {
      var arg := args[index];
      if arg == flag && index + 1 < |args| {
        AppendAssociative(values, [args[index + 1]], ArgValues(args, flag, index + 2));
        values := values + [args[index + 1]];
        index := index + 2;
        continue;
      }
      var inline := if Begins(arg, flag + "=") then [AfterFlag(arg, flag)] else [];
      AppendAssociative(values, inline, ArgValues(args, flag, index + 1));
      values := values + inline;
      index := index + 1;
    }
  }

  /** A mode option as the reader sees it: none here, or a directive and how many strings it takes. */
  function ModeArg(args: seq<string>, index: nat, flag: string,
                   target: DownloadMode): (r: Result<Option<(Directive, nat)>>)
    requires index < |args|
    ensures r.Ok? && r.value.Some? ==> 0 < r.value.value.1 <= |args| - index
  {
    var arg := args[index];
    if arg == flag then
      if index + 1 < |args| && !Dashed(args[index + 1]) then
        var enabled := ParseBool(args[index + 1]);
        if enabled.None? then Err else Ok(Some((DirectiveFor(target, enabled.value), 2)))
      else Ok(Some((SetMode(target), 1)))
    else if Begins(arg, flag + "=") || Begins(arg, flag + ":") then
      var enabled := ParseBool(arg[|flag| + 1..]);
      if enabled.None? then Err else Ok(Some((DirectiveFor(target, enabled.value), 1)))
    else Ok(None)
  }

  function DownloadModeArg(args: seq<string>, index: nat): (r: Result<Option<(Directive, nat)>>)
    requires index < |args|
    ensures r.Ok? && r.value.Some? ==> 0 < r.value.value.1 <= |args| - index
  {
    var audio := ModeArg(args, index, AUDIO_ONLY, AudioOnly);
    if audio == Ok(None) then ModeArg(args, index, VIDEO_ONLY, VideoOnly) else audio
  }

  function Directed(mode: DownloadMode, directive: Directive): DownloadMode {
    match directive
    case SetMode(next) => next
    case ClearMode(target) => if mode == target then All else mode
  }

  function ApplyFrom(args: seq<string>, index: nat, mode: DownloadMode): Result<DownloadMode>
    requires index <= |args|
    decreases |args| - index
  {
    if index == |args| then Ok(mode)
    else
      var found := DownloadModeArg(args, index);
      if found.Err? then Err
      else if found.value.Some? then ApplyFrom(args, index + found.value.value.1, Directed(mode, found.value.value.0))
      else if args[index] == ONLY then
        if index + 1 == |args| || ParseDownloadMode(args[index + 1]).None? then Err
        else ApplyFrom(args, index + 2, ParseDownloadMode(args[index + 1]).value)
      else if Begins(args[index], ONLY + "=") then
        var next := ParseDownloadMode(AfterFlag(args[index], ONLY));
        if next.None? then Err else ApplyFrom(args, index + 1, next.value)
      else ApplyFrom(args, index + 1, mode)
  }

  method ApplyLegacyDownloadModes(args: seq<string>, mode: DownloadMode) returns (applied: Result<DownloadMode>)
    ensures applied == ApplyFrom(args, 0, mode)
  {
    hide DownloadModeArg, ParseDownloadMode, Begins;
    var current, index := mode, 0;
    while index < |args|
      invariant index <= |args|
      invariant ApplyFrom(args, index, current) == ApplyFrom(args, 0, mode)
    {
      var found := DownloadModeArg(args, index);
      if found.Err? { return Err; }
      if found.value.Some? {
        current := Directed(current, found.value.value.0);
        index := index + found.value.value.1;
        continue;
      }
      if args[index] == ONLY {
        if index + 1 == |args| { return Err; }
        var value := ParseDownloadMode(args[index + 1]);
        if value.None? { return Err; }
        current := value.value;
        index := index + 2;
        continue;
      }
      if Begins(args[index], ONLY + "=") {
        var value := ParseDownloadMode(AfterFlag(args[index], ONLY));
        if value.None? { return Err; }
        current := value.value;
      }
      index := index + 1;
    }
    applied := Ok(current);
  }

  // ---- agreement ----

  /** The values the validator attributed to a flag. */
  function ValuesOf(tokens: seq<Token>, flag: string): seq<string> {
    if tokens == [] then []
    else (if tokens[0].Value? && tokens[0].flag == flag then [tokens[0].value] else []) + ValuesOf(tokens[1..], flag)
  }

  function ModeAfter(token: Token, mode: DownloadMode): DownloadMode {
    if token.Mode? then Directed(mode, token.directive)
    else if token.flag == ONLY && ParseDownloadMode(token.value).Some? then ParseDownloadMode(token.value).value
    else mode
  }

  /** The download mode the accepted options ask for. */
  function ModeOf(tokens: seq<Token>, mode: DownloadMode): DownloadMode {
    if tokens == [] then mode else ModeOf(tokens[1..], ModeAfter(tokens[0], mode))
  }

  /** No URL starts with two dashes. */
  ghost predicate SaneUrls(urls: Urls) {
    forall s :: Dashed(s) ==> !urls.endpoint(s) && !urls.proxy(s)
  }

  predicate ValueFlag(flag: string) { flag == ONLY || flag in GLOBAL_FLAGS }

  predicate PlainName(name: string) { Dashed(name) && forall i :: 0 <= i < |name| ==> !IsSeparator(name[i]) }

  /** Names of flags with a value differ in length from the two switches. */
  predicate ValueName(name: string) { PlainName(name) && |name| != |AUDIO_ONLY| == |VIDEO_ONLY| }

  lemma ShortNames()
    ensures ValueName("--api-base") && ValueName("--pgc-base") && ValueName("--intl-base") && ValueName(ONLY)
  {
  }

  lemma PassportNames()
    ensures ValueName("--comment-base") && ValueName("--passport-base") && ValueName("--tv-api-base")
              && ValueName("--tv-passport-base")
  {
  }

  lemma GrpcNames()
    ensures ValueName("--tv-passport-poll-base") && ValueName("--app-grpc-base")
              && ValueName("--app-pgc-grpc-base") && ValueName(TIMEOUT)
  {
  }

  lemma AreaNames()
    ensures ValueName(PLAYURL_MODE) && ValueName(AREA) && ValueName(AREA_PROXY) && ValueName(API_PROXY)
  {
  }

  lemma FlagIsPlain(flag: string)
    requires ValueFlag(flag)
    ensures ValueName(flag)
  {
    hide ValueName;
    ShortNames();
    PassportNames();
    GrpcNames();
    AreaNames();
  }

  lemma SwitchIsPlain()
    ensures PlainName(AUDIO_ONLY) && PlainName(VIDEO_ONLY) && AUDIO_ONLY != VIDEO_ONLY
  {
  }

  lemma LabelIs(arg: string, name: string)
    requires PlainName(name) && Begins(arg, name) && (|arg| > |name| ==> IsSeparator(arg[|name|]))
    ensures Label(arg) == name
  {
    var found := Label(arg);
    assert forall i :: 0 <= i < |found| ==> arg[i] == found[i];
    assert forall i :: 0 <= i < |name| ==> arg[i] == name[i];
    assert |found| == |name|;
  }

  // ---- an accepted value never looks like an option ----

  lemma {:induction false} DashesStay(s: string)
    requires Dashed(s)
    ensures Dashed(TrimEnd(s))
  {
    assert s[0] == '-' && s[1] == '-';
    if IsWhitespace(s[|s| - 1]) { DashesStay(s[..|s| - 1]); }
  }

  lemma TrimDashed(s: string)
    requires Dashed(s)
    ensures Dashed(Trim(s)) && Trim(s)[0] == '-'
  {
    assert s[0] == '-';
    DashesStay(s);
  }

  lemma DashedIsNoWord(s: string)
    requires Dashed(s)
    ensures !IsArea(s) && !IsPlayurlMode(s)
    ensures ParseDownloadMode(s).None? && ParseBool(s).None?
  {
    hide Trim, NumberValue;
    TrimDashed(s);
    assert s[0] == '-' && Lower(s)[0] == '-' && Lower(Trim(s))[0] == '-';
  }

  lemma DashedIsNoTimeout(s: string)
    requires Dashed(s)
    ensures !IsTimeout(s)
  {
    hide Trim, NumberValue;
    TrimDashed(s);
    var trimmed := Trim(s);
    assert trimmed[..1][0] == '-' && "+"[0] == '+';
    assert !Begins(trimmed, "+") && !AllDecimal(trimmed);
  }

  lemma DashedIsNoProxy(urls: Urls, s: string)
    requires SaneUrls(urls) && Dashed(s)
    ensures Trim(s) != "" && !IsProxySpec(urls, s)
  {
    hide IsArea, Trim;
    TrimDashed(s);
    var trimmed := Trim(s);
    var end := Find(trimmed, '=');
    assert trimmed[0] == '-' && trimmed[1] == '-';
    if end < |trimmed| {
      assert Dashed(trimmed[..end]);
      DashedIsNoWord(trimmed[..end]);
    }
  }

  lemma DashedIsNoList(urls: Urls, s: string)
    requires SaneUrls(urls) && Dashed(s)
    ensures !IsProxyList(urls, s)
  {
    hide IsProxySpec, SaneUrls, Trim;
    var first := SplitComma(s)[0];
    assert s[0] == '-' && s[1] == '-';
    assert first == s[..Find(s, ',')];
    assert Dashed(first);
    DashedIsNoProxy(urls, first);
  }

  lemma DashedIsNoValue(urls: Urls, flag: string, s: string)
    requires SaneUrls(urls) && Dashed(s)
    ensures !IsGlobalValue(urls, flag, s)
  {
    hide IsProxyList, IsArea, IsPlayurlMode, IsTimeout, Trim;
    TrimDashed(s);
    DashedIsNoWord(s);
    DashedIsNoTimeout(s);
    DashedIsNoList(urls, s);
  }

  // ---- what a token says about the list ----

  /** How an option with a value is written. */
  predicate Written(args: seq<string>, index: nat, flag: string, value: string, next: nat)
    requires index < |args|
  {
    if args[index] == flag then next == index + 2 <= |args| && args[index + 1] == value
    else next == index + 1 && args[index] == flag + "=" + value
  }

  lemma ValueTokenWritten(args: seq<string>, index: nat, flag: string)
    requires index < |args| && MatchesValueFlag(args[index], flag) && ValueToken(args, index, flag).Some?
    ensures var (token, next) := ValueToken(args, index, flag).value;
            token.Value? && token.flag == flag && Written(args, index, flag, token.value, next)
  {
    hide Trim;
    var arg := args[index];
    if arg != flag {
      assert arg == flag + "=" + arg[|flag| + 1..];
    }
  }

  lemma {:induction false} FlagFound(flags: seq<string>, arg: string)
    ensures var flag := FindFlag(flags, arg); flag.Some? ==> flag.value in flags && MatchesValueFlag(arg, flag.value)
    ensures FindFlag(flags, arg).None? ==> forall flag :: flag in flags ==> !MatchesValueFlag(arg, flag)
  {
    hide MatchesValueFlag;
    if flags != [] {
      FlagFound(flags[1..], arg);
      assert flags == [flags[0]] + flags[1..];
    }
  }

  /** A value token: a flag with a value that is no option itself. */
  lemma ValueTokenSays(rules: Rules, args: seq<string>, index: nat)
    requires SaneUrls(rules.urls) && index < |args|
    requires TokenAt(rules, args, index).Some? && TokenAt(rules, args, index).value.0.Value?
    ensures var (token, next) := TokenAt(rules, args, index).value;
            && ValueFlag(token.flag) && !Dashed(token.value)
            && Written(args, index, token.flag, token.value, next)
            && (token.flag == ONLY ==> ParseDownloadMode(token.value).Some?)
            && (token.flag != ONLY ==> IsGlobalValue(rules.urls, token.flag, token.value))
  {
    hide ValueToken, IsGlobalValue, ParseDownloadMode, MatchesValueFlag, Dashed, IsSwitch, Written, SaneUrls;
    var arg := args[index];
    var global := if rules.globalOptions then FindFlag(GLOBAL_FLAGS, arg) else None;
    FlagFound(GLOBAL_FLAGS, arg);
    var (token, next) := TokenAt(rules, args, index).value;
    if global.Some? {
      OnlyIsNotGlobal();
      ValueTokenWritten(args, index, global.value);
      if Dashed(token.value) { DashedIsNoValue(rules.urls, token.flag, token.value); }
    } else {
      ValueTokenWritten(args, index, ONLY);
      if Dashed(token.value) { DashedIsNoWord(token.value); }
    }
  }

  lemma OnlyIsNotGlobal()
    ensures ONLY !in GLOBAL_FLAGS
  {
  }

  /** A switch token: how the switch is written and what it does. */
  ghost predicate SwitchWritten(args: seq<string>, index: nat, directive: Directive, next: nat)
    requires index < |args|
  {
    exists name, target, enabled ::
      && ((name == AUDIO_ONLY && target == AudioOnly) || (name == VIDEO_ONLY && target == VideoOnly))
      && directive == DirectiveFor(target, enabled)
      && SwitchForm(args, index, name, enabled, next)
  }

  predicate SwitchForm(args: seq<string>, index: nat, name: string, enabled: bool, next: nat)
    requires index < |args|
  {
    var arg := args[index];
    if arg == name then
      if index + 1 < |args| && ParseBool(args[index + 1]).Some? then
        next == index + 2 && ParseBool(args[index + 1]) == Some(enabled)
      else next == index + 1 && enabled
    else
      && next == index + 1 && Begins(arg, name) && |arg| > |name| && IsSeparator(arg[|name|])
      && ParseBool(arg[|name| + 1..]) == Some(enabled)
  }

  lemma SwitchLabel(arg: string, name: string)
    requires MatchesBooleanFlag(arg, name) && PlainName(name)
    ensures Label(arg) == name && Begins(arg, name) && (arg != name ==> |arg| > |name| && IsSeparator(arg[|name|]))
  {
    hide Begins, PlainName, Label;
    BeginsLength(arg, name);
    if arg != name {
      if Begins(arg[|name|..], "=") { NextChar(arg, |name|, "="); } else { NextChar(arg, |name|, ":"); }
    } else {
      WholeBegins(arg);
    }
    LabelIs(arg, name);
  }

  lemma NextChar(s: string, n: nat, c: string)
    requires n <= |s| && |c| == 1 && Begins(s[n..], c)
    ensures n < |s| && s[n] == c[0]
  {
    assert s[n..][..1][0] == s[n];
  }

  lemma BeginsLength(s: string, prefix: string)
    ensures Begins(s, prefix) ==> |prefix| <= |s|
  {
  }

  lemma WholeBegins(s: string)
    ensures Begins(s, s)
  {
  }

  lemma SwitchTokenSays(rules: Rules, args: seq<string>, index: nat)
    requires index < |args|
    requires TokenAt(rules, args, index).Some? && TokenAt(rules, args, index).value.0.Mode?
    ensures var (token, next) := TokenAt(rules, args, index).value;
            SwitchWritten(args, index, token.directive, next)
  {
    hide ValueToken, MatchesValueFlag, ParseBool, MatchesBooleanFlag, Begins, Label, PlainName;
    var arg := args[index];
    var (token, next) := TokenAt(rules, args, index).value;
    TokenIsSwitch(rules, args, index);
    SwitchIsPlain();
    var audio := MatchesBooleanFlag(arg, AUDIO_ONLY);
    var name, target := if audio then AUDIO_ONLY else VIDEO_ONLY, if audio then AudioOnly else VideoOnly;
    SwitchLabel(arg, name);
    SwitchTokenForm(args, index, name, target);
  }

  lemma SwitchTokenForm(args: seq<string>, index: nat, name: string, target: DownloadMode)
    requires index < |args| && SwitchToken(args, index).Some?
    requires || (name == AUDIO_ONLY && target == AudioOnly)
             || (name == VIDEO_ONLY && target == VideoOnly && name != AUDIO_ONLY)
    requires var arg := args[index];
             Label(arg) == name && Begins(arg, name) && (arg != name ==> |arg| > |name| && IsSeparator(arg[|name|]))
    ensures var (token, next) := SwitchToken(args, index).value;
            token.Mode? && SwitchForm(args, index, name, token.directive.SetMode?, next)
            && token.directive == DirectiveFor(target, token.directive.SetMode?)
  {
    hide ParseBool, Begins, Label;
    TrueParses();
    var arg := args[index];
    assert |AUDIO_ONLY| == |VIDEO_ONLY| == |name|;
    if arg == name {
      var (token, next) := SwitchToken(args, index).value;
      if index + 1 < |args| && ParseBool(args[index + 1]).Some? {
        assert next == index + 2;
        assert token == Mode(DirectiveFor(target, ParseBool(args[index + 1]).value));
      } else {
        assert next == index + 1;
        assert token == Mode(DirectiveFor(target, true));
      }
    } else {
      assert arg != AUDIO_ONLY && arg != VIDEO_ONLY;
      var text := arg[|name| + 1..];
      assert ParseBool(text).Some?;
      assert SwitchToken(args, index).value == (Mode(DirectiveFor(target, ParseBool(text).value)), index + 1);
    }
  }

  lemma TrueParses()
    ensures ParseBool("true") == Some(true)
  {
    assert Lower("true") == "true";
  }

  lemma TokenIsSwitch(rules: Rules, args: seq<string>, index: nat)
    requires index < |args|
    requires TokenAt(rules, args, index).Some? && TokenAt(rules, args, index).value.0.Mode?
    ensures IsSwitch(args[index]) && SwitchToken(args, index) == TokenAt(rules, args, index)
  {
    hide SwitchToken, LegacyArgValue, ConsumeValueArg, MatchesValueFlag, IsSwitch, IsGlobalValue, ParseDownloadMode;
  }

  // ---- the readers agree, option by option ----

  lemma ValueTokenRead(args: seq<string>, index: nat, flag: string, value: string, next: nat, wanted: string)
    requires index < |args| && Written(args, index, flag, value, next) && next <= |args|
    requires ValueFlag(flag) && ValueFlag(wanted) && !Dashed(value)
    ensures ArgValues(args, wanted, index) == (if flag == wanted then [value] else []) + ArgValues(args, wanted, next)
  {
    hide ValueFlag;
    FlagIsPlain(flag);
    FlagIsPlain(wanted);
    NoOption(value, wanted);
    OtherFlag(args[index], flag, value, wanted);
  }

  /** A string without leading dashes is neither a flag nor a flag with a value. */
  lemma NoOption(value: string, wanted: string)
    requires PlainName(wanted) && !Dashed(value)
    ensures value != wanted && !Begins(value, wanted + "=")
  {
    FlagBegins(value, wanted, "=");
    assert Begins(wanted, "--");
  }

  lemma FlagBegins(value: string, wanted: string, sep: string)
    requires Dashed(wanted)
    ensures Begins(value, wanted + sep) ==> Dashed(value)
  {
    assert (wanted + sep)[..2] == wanted[..2];
    assert Begins(value, wanted + sep) ==> value[..2] == value[..|wanted + sep|][..2];
  }

  lemma OtherFlag(arg: string, flag: string, value: string, wanted: string)
    requires PlainName(flag) && PlainName(wanted) && (arg == flag || arg == flag + "=" + value)
    ensures arg == wanted ==> arg == flag
    ensures Begins(arg, wanted + "=") ==> arg != flag && flag == wanted && AfterFlag(arg, wanted) == value
  {
    assert Begins(arg, flag) && (|arg| > |flag| ==> arg[|flag|] == '=');
    LabelIs(arg, flag);
    if arg == wanted { LabelIs(arg, wanted); }
    if Begins(arg, wanted + "=") {
      WantedLabel(arg, wanted);
    }
  }

  lemma WantedLabel(arg: string, wanted: string)
    requires PlainName(wanted) && Begins(arg, wanted + "=")
    ensures Label(arg) == wanted && |arg| > |wanted|
  {
    assert arg[|wanted|] == (wanted + "=")[|wanted|] == '=';
    assert arg[..|wanted|] == (wanted + "=")[..|wanted|] == wanted;
    LabelIs(arg, wanted);
  }

  lemma BoolIsNoOption(value: string, wanted: string)
    requires ParseBool(value).Some? && PlainName(wanted)
    ensures !Dashed(value) && value != wanted && !Begins(value, wanted + "=")
  {
    hide ParseBool;
    if Dashed(value) { DashedIsNoWord(value); }
    NoOption(value, wanted);
  }

  lemma SwitchTokenRead(args: seq<string>, index: nat, directive: Directive, next: nat, wanted: string)
    requires index < |args| && SwitchWritten(args, index, directive, next) && next <= |args| && ValueFlag(wanted)
    ensures ArgValues(args, wanted, index) == ArgValues(args, wanted, next)
  {
    hide ValueFlag, ParseBool, Begins, Label, PlainName;
    var name, target, enabled :| ((name == AUDIO_ONLY && target == AudioOnly)
        || (name == VIDEO_ONLY && target == VideoOnly))
      && directive == DirectiveFor(target, enabled) && SwitchForm(args, index, name, enabled, next);
    FlagIsPlain(wanted);
    SwitchIsPlain();
    SwitchIsNotWanted(args[index], name, wanted);
    if next == index + 2 { BoolIsNoOption(args[index + 1], wanted); }
  }

  lemma SwitchIsNotWanted(arg: string, name: string, wanted: string)
    requires PlainName(name) && PlainName(wanted) && name != wanted
    requires arg == name || (Begins(arg, name) && |arg| > |name| && IsSeparator(arg[|name|]))
    ensures arg != wanted && !Begins(arg, wanted + "=")
  {
    LabelIs(arg, name);
    if arg == wanted { LabelIs(arg, wanted); }
    if Begins(arg, wanted + "=") { WantedLabel(arg, wanted); }
  }

  // ---- the mode reader, option by option ----

  /** Neither the option nor the option with an inline value. */
  predicate NotOption(arg: string, name: string) {
    arg != name && !Begins(arg, name + "=") && !Begins(arg, name + ":")
  }

  lemma LabelDiffers(arg: string, flag: string, name: string)
    requires PlainName(flag) && PlainName(name) && flag != name
    requires Begins(arg, flag) && (|arg| > |flag| ==> IsSeparator(arg[|flag|]))
    ensures NotOption(arg, name)
  {
    LabelIs(arg, flag);
    if arg == name { LabelIs(arg, name); }
    if Begins(arg, name + "=") { WantedLabel(arg, name); }
    if Begins(arg, name + ":") { ColonLabel(arg, name); }
  }

  lemma ColonLabel(arg: string, name: string)
    requires PlainName(name) && Begins(arg, name + ":")
    ensures Label(arg) == name && |arg| > |name|
  {
    assert arg[|name|] == (name + ":")[|name|] == ':';
    assert arg[..|name|] == (name + ":")[..|name|] == name;
    LabelIs(arg, name);
  }

  lemma PlainText(value: string, name: string)
    requires PlainName(name) && !Dashed(value)
    ensures NotOption(value, name)
  {
    NoOption(value, name);
    FlagBegins(value, name, ":");
  }

  lemma Skipped(args: seq<string>, index: nat, mode: DownloadMode)
    requires index < |args|
    requires NotOption(args[index], AUDIO_ONLY) && NotOption(args[index], VIDEO_ONLY) && NotOption(args[index], ONLY)
    ensures ApplyFrom(args, index, mode) == ApplyFrom(args, index + 1, mode)
  {
    hide ParseDownloadMode, ParseBool, Begins;
  }

  lemma ValueTokenApplied(args: seq<string>, index: nat, flag: string, value: string, next: nat, mode: DownloadMode)
    requires index < |args| && Written(args, index, flag, value, next) && next <= |args|
    requires ValueFlag(flag) && !Dashed(value) && (flag == ONLY ==> ParseDownloadMode(value).Some?)
    ensures ApplyFrom(args, index, mode) == ApplyFrom(args, next, ModeAfter(Value(flag, value), mode))
  {
    hide ValueFlag, ParseDownloadMode, ParseBool, PlainName, Dashed, ApplyFrom, NotOption;
    FlagIsPlain(flag);
    ShortNames();
    SwitchIsPlain();
    WrittenLabel(args[index], flag, value);
    LabelDiffers(args[index], flag, AUDIO_ONLY);
    LabelDiffers(args[index], flag, VIDEO_ONLY);
    if flag == ONLY {
      OnlyApplied(args, index, value, next, mode);
    } else {
      LabelDiffers(args[index], flag, ONLY);
      Skipped(args, index, mode);
      if args[index] == flag {
        PlainText(value, AUDIO_ONLY);
        PlainText(value, VIDEO_ONLY);
        PlainText(value, ONLY);
        Skipped(args, index + 1, mode);
      }
    }
  }

  lemma WrittenLabel(arg: string, flag: string, value: string)
    requires arg == flag || arg == flag + "=" + value
    ensures Begins(arg, flag) && (|arg| > |flag| ==> IsSeparator(arg[|flag|]))
    ensures arg != flag ==> Begins(arg, flag + "=") && AfterFlag(arg, flag) == value
  {
  }

  lemma OnlyApplied(args: seq<string>, index: nat, value: string, next: nat, mode: DownloadMode)
    requires index < |args| && Written(args, index, ONLY, value, next) && next <= |args|
    requires NotOption(args[index], AUDIO_ONLY) && NotOption(args[index], VIDEO_ONLY) && ParseDownloadMode(value).Some?
    ensures ApplyFrom(args, index, mode) == ApplyFrom(args, next, ParseDownloadMode(value).value)
  {
    hide ParseDownloadMode, ParseBool, Begins, Dashed;
    WrittenLabel(args[index], ONLY, value);
  }

  lemma SwitchTokenApplied(args: seq<string>, index: nat, directive: Directive, next: nat, mode: DownloadMode)
    requires index < |args| && SwitchWritten(args, index, directive, next) && next <= |args|
    requires next < |args| ==> Dashed(args[next])
    ensures ApplyFrom(args, index, mode) == ApplyFrom(args, next, Directed(mode, directive))
  {
    hide ParseBool, Begins, Label, PlainName, NotOption, Dashed, ParseDownloadMode;
    var name, target, enabled :| ((name == AUDIO_ONLY && target == AudioOnly)
        || (name == VIDEO_ONLY && target == VideoOnly))
      && directive == DirectiveFor(target, enabled) && SwitchForm(args, index, name, enabled, next);
    SwitchIsPlain();
    SwitchArg(args, index, name, target, enabled, next);
    if name == VIDEO_ONLY {
      SwitchBegins(args[index], name);
      LabelDiffers(args[index], VIDEO_ONLY, AUDIO_ONLY);
      NoModeArg(args, index, AUDIO_ONLY, AudioOnly);
    }
    assert DownloadModeArg(args, index) == Ok(Some((directive, next - index)));
  }

  lemma SwitchBegins(arg: string, name: string)
    requires arg == name || (Begins(arg, name) && |arg| > |name| && IsSeparator(arg[|name|]))
    ensures Begins(arg, name) && (|arg| > |name| ==> IsSeparator(arg[|name|]))
  {
  }

  lemma NoModeArg(args: seq<string>, index: nat, name: string, target: DownloadMode)
    requires index < |args| && NotOption(args[index], name)
    ensures ModeArg(args, index, name, target) == Ok(None)
  {
  }

  /** The reader takes a switch the way the validator did. */
  lemma SwitchArg(args: seq<string>, index: nat, name: string, target: DownloadMode, enabled: bool, next: nat)
    requires index < |args| && SwitchForm(args, index, name, enabled, next) && next <= |args|
    requires next < |args| ==> Dashed(args[next])
    ensures ModeArg(args, index, name, target) == Ok(Some((DirectiveFor(target, enabled), next - index)))
  {
    hide ParseBool;
    var arg := args[index];
    if arg != name {
      SeparatorBegins(arg, name);
    } else if index + 1 < |args| {
      hide Dashed;
      BoolOrDashed(args[index + 1]);
    }
  }

  lemma BoolOrDashed(value: string)
    ensures !(ParseBool(value).Some? && Dashed(value))
  {
    hide ParseBool;
    if Dashed(value) { DashedIsNoWord(value); }
  }

  lemma SeparatorBegins(arg: string, name: string)
    requires Begins(arg, name) && |arg| > |name| && IsSeparator(arg[|name|])
    ensures Begins(arg, name + "=") || Begins(arg, name + ":")
  {
    assert arg[..|name| + 1] == name + [arg[|name|]];
  }

  // ---- the theorems ----

  lemma TokenIsDashed(rules: Rules, args: seq<string>, index: nat)
    requires SaneUrls(rules.urls) && index < |args| && TokenAt(rules, args, index).Some?
    ensures Dashed(args[index])
  {
    hide TokenAt, IsGlobalValue, ParseDownloadMode, ParseBool, SaneUrls, ValueFlag, Label;
    var (token, next) := TokenAt(rules, args, index).value;
    if token.Value? {
      ValueTokenSays(rules, args, index);
      FlagIsPlain(token.flag);
    } else {
      SwitchTokenSays(rules, args, index);
      SwitchIsPlain();
    }
  }

  /**
   In an accepted list a reader that does not know which strings are values finds, for every flag,
   exactly the values the validator attributed to it.
   */
  lemma {:induction false} ValuesAgree(rules: Rules, args: seq<string>, index: nat, flag: string)
    requires SaneUrls(rules.urls) && ValueFlag(flag) && index <= |args|
    requires Tokens(rules, args, index).Some?
    ensures ArgValues(args, flag, index) == ValuesOf(Tokens(rules, args, index).value, flag)
    decreases |args| - index
  {
    hide TokenAt, Written, SwitchWritten, SaneUrls, ValueFlag, Begins, IsGlobalValue, ParseDownloadMode, Dashed;
    if index < |args| {
      var (token, next) := TokenAt(rules, args, index).value;
      ValuesAgree(rules, args, next, flag);
      if token.Value? {
        ValueTokenSays(rules, args, index);
        ValueTokenRead(args, index, token.flag, token.value, next, flag);
      } else {
        SwitchTokenSays(rules, args, index);
        SwitchTokenRead(args, index, token.directive, next, flag);
      }
      var rest := Tokens(rules, args, next).value;
      assert ([token] + rest)[1..] == rest;
    }
  }

  /** In an accepted list the mode reader never fails and applies exactly the accepted directives. */
  lemma {:induction false} ModesAgree(rules: Rules, args: seq<string>, index: nat, mode: DownloadMode)
    requires SaneUrls(rules.urls) && index <= |args|
    requires Tokens(rules, args, index).Some?
    ensures ApplyFrom(args, index, mode) == Ok(ModeOf(Tokens(rules, args, index).value, mode))
    decreases |args| - index
  {
    hide TokenAt, Written, SwitchWritten, SaneUrls, ValueFlag;
    hide Begins, IsGlobalValue, ParseDownloadMode, Dashed, ModeAfter;
    if index == |args| {
      assert ApplyFrom(args, index, mode) == Ok(mode);
    } else {
      hide ApplyFrom;
      var (token, next) := TokenAt(rules, args, index).value;
      ModesAgree(rules, args, next, ModeAfter(token, mode));
      if token.Value? {
        ValueTokenSays(rules, args, index);
        ValueTokenApplied(args, index, token.flag, token.value, next, mode);
      } else {
        SwitchTokenSays(rules, args, index);
        if next < |args| { TokenIsDashed(rules, args, next); }
        SwitchTokenApplied(args, index, token.directive, next, mode);
        DirectiveAfter(token, mode);
      }
      var rest := Tokens(rules, args, next).value;
      assert ([token] + rest)[1..] == rest;
    }
  }

  lemma DirectiveAfter(token: Token, mode: DownloadMode)
    requires token.Mode?
    ensures ModeAfter(token, mode) == Directed(mode, token.directive)
  {
  }

  /** Every value the readers find for a flag is one the validator accepted for that flag. */
  lemma {:induction false} ReadValuesAreValid(rules: Rules, args: seq<string>, index: nat, flag: string)
    requires SaneUrls(rules.urls) && ValueFlag(flag) && index <= |args|
    requires Tokens(rules, args, index).Some?
    ensures forall value :: value in ArgValues(args, flag, index) ==>
              if flag == ONLY then ParseDownloadMode(value).Some? else IsGlobalValue(rules.urls, flag, value)
    decreases |args| - index
  {
    hide TokenAt, Written, SwitchWritten, SaneUrls, ValueFlag;
    hide Begins, IsGlobalValue, ParseDownloadMode, Dashed, ArgValues;
    ValuesAgree(rules, args, index, flag);
    if index < |args| {
      var (token, next) := TokenAt(rules, args, index).value;
      ValuesAgree(rules, args, next, flag);
      ReadValuesAreValid(rules, args, next, flag);
      if token.Value? { ValueTokenSays(rules, args, index); }
      var rest := Tokens(rules, args, next).value;
      assert ([token] + rest)[1..] == rest;
    }
  }
}
