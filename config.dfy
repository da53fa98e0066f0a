/**
 * config.py: the settings read from the process environment when the bot starts.
 * The environment is a map from variable name to value; `os.getenv(k, d)` is `GetEnvOr`.
 * A raised `ValueError` is a `Failure`; a logged warning is a `ConfigWarning` in the result.
 */
module Config {
  import opened Wrappers
  import opened Text
  import opened Numbers

  type Env = map<string, string>

  datatype ConfigError =
    | MissingBotToken
    | FloodSettingNotInt(value: string)
    | FloodLimitNotPositive
    | FloodPeriodNotPositive
    | FloodBlockTimeNegative
    | BlockDurationNotInt(value: string)

  datatype ConfigWarning =
    | NoAuthorizedNumbers
    | SuspiciousToken
    | BadAdminId(piece: string)
    | NoAdmins
    | ShortBlockDuration

  datatype FloodSettings = FloodSettings(limit: int, period: int, blockTime: int)

  datatype Settings = Settings(
    authorizedNumbers: set<string>,
    botToken: string,
    adminIds: seq<int>,
    flood: FloodSettings,
    blockDuration: int,
    warnings: seq<ConfigWarning>)

  const DefaultFloodLimit := 5
  const DefaultFloodPeriod := 10
  const DefaultFloodBlockTime := 15
  const DefaultBlockDuration := 300

  /** `os.getenv(key, default)`. */
  function GetEnvOr(env: Env, key: string, default: string): string {
    if key in env then env[key] else default
  }

  /** The stripped, non-empty pieces, in order, of a list of raw pieces. */
  function StrippedNonEmpty(pieces: seq<string>): (r: seq<string>)
    ensures forall i :: 0 <= i < |r| ==> r[i] != "" && IsStripped(r[i])
  {
    if pieces == [] then []
    else if Strip(pieces[0]) != "" then [Strip(pieces[0])] + StrippedNonEmpty(pieces[1..])
    else StrippedNonEmpty(pieces[1..])
  }

  /** A piece is kept exactly when it is not blank, and then in stripped form. */
  lemma {:induction false} StrippedNonEmptyMembership(pieces: seq<string>, x: string)
    ensures x in StrippedNonEmpty(pieces) <==> x != "" && exists j :: 0 <= j < |pieces| && Strip(pieces[j]) == x
  {
    if pieces != [] {
      StrippedNonEmptyMembership(pieces[1..], x);
      if exists j :: 0 <= j < |pieces| && Strip(pieces[j]) == x {
        var j :| 0 <= j < |pieces| && Strip(pieces[j]) == x;
        if j > 0 { assert Strip(pieces[1..][j - 1]) == x; }
      }
      if x in StrippedNonEmpty(pieces) {
        var i :| 0 <= i < |StrippedNonEmpty(pieces)| && StrippedNonEmpty(pieces)[i] == x;
      }
    }
  }

  /** `[x.strip() for x in raw.split(",") if x.strip()]`: the comma list idiom used throughout the bot. */
  function CommaList(raw: string): (r: seq<string>)
    ensures forall i :: 0 <= i < |r| ==> r[i] != "" && IsStripped(r[i]) && ',' !in r[i]
  {
    var pieces := Split(raw, ',');
    var r := StrippedNonEmpty(pieces);
    assert forall i :: 0 <= i < |r| ==> ',' !in r[i] by {
      forall i | 0 <= i < |r| ensures ',' !in r[i] {
        StrippedNonEmptyMembership(pieces, r[i]);
        var j :| 0 <= j < |pieces| && Strip(pieces[j]) == r[i];
        StripKeepsOut(pieces[j], ',');
      }
    }
    r
  }

  /** An unset or empty variable lists nothing. */
  lemma CommaListOfEmpty()
    ensures CommaList("") == []
  {
    assert Split("", ',') == [""];
    AllSpaceStripsToEmpty("");
    assert StrippedNonEmpty([""]) == StrippedNonEmpty([]);
  }

  /** The kept pieces of a list whose first piece is `p`. */
  lemma StrippedNonEmptyCons(p: string, ps: seq<string>)
    ensures StrippedNonEmpty([p] + ps) == (if Strip(p) != "" then [Strip(p)] else []) + StrippedNonEmpty(ps)
  {
    assert ([p] + ps)[1..] == ps;
  }

  /** A value written as `sep.join(xs)`, for a separator made of blanks and one comma. */
  predicate ListItem(x: string) {
    x != "" && IsStripped(x) && ',' !in x
  }

  /**
   * Reading back a list written with `",".join(xs)` or `" ,".join(xs)` (the form
   * handlers/menu.py writes) gives `xs` when its items are non-empty, stripped and comma-free.
   */
  lemma {:induction false} CommaListOfJoin(xs: seq<string>, pad: string)
    requires forall i :: 0 <= i < |xs| ==> ListItem(xs[i])
    requires AllSpace(pad)
    ensures CommaList(Join(xs, pad + ",")) == xs
  {
    if xs == [] {
      CommaListOfEmpty();
    } else if |xs| == 1 {
      SplitWithoutSeparator(xs[0], ',');
      StripOfStripped(xs[0]);
      StrippedNonEmptyCons(xs[0], []);
    } else {
      var rest := Join(xs[1..], pad + ",");
      JoinRegroup(xs, pad);
      assert ',' !in xs[0] + pad;
      SplitAfterPiece(xs[0] + pad, rest, ',');
      StripTrailingSpace(xs[0], pad);
      CommaListOfJoin(xs[1..], pad);
      StrippedNonEmptyCons(xs[0] + pad, Split(rest, ','));
      HeadTail(xs);
    }
  }

  lemma JoinRegroup(xs: seq<string>, pad: string)
    requires |xs| > 1
    ensures Join(xs, pad + ",") == (xs[0] + pad) + [','] + Join(xs[1..], pad + ",")
  {
  }

  lemma HeadTail<T>(xs: seq<T>)
    requires xs != []
    ensures xs == [xs[0]] + xs[1..]
  {
  }

  /** config.py `get_authorized_numbers()`: the set of numbers listed in `AUTHORIZED_NUMBERS`. */
  function GetAuthorizedNumbers(env: Env): (r: set<string>)
    ensures forall n :: n in r ==> ListItem(n)
    ensures "AUTHORIZED_NUMBERS" !in env ==> r == {}
  {
    var ns := CommaList(GetEnvOr(env, "AUTHORIZED_NUMBERS", ""));
    CommaListOfEmpty();
    set n | n in ns
  }

  /** A number is authorized exactly when it is a non-blank comma-separated piece of the variable, stripped. */
  lemma AuthorizedNumberMembership(env: Env, n: string)
    ensures var pieces := Split(GetEnvOr(env, "AUTHORIZED_NUMBERS", ""), ',');
      n in GetAuthorizedNumbers(env) <==> n != "" && exists j :: 0 <= j < |pieces| && Strip(pieces[j]) == n
  {
    var pieces := Split(GetEnvOr(env, "AUTHORIZED_NUMBERS", ""), ',');
    var ns := StrippedNonEmpty(pieces);
    StrippedNonEmptyMembership(pieces, n);
    assert CommaList(GetEnvOr(env, "AUTHORIZED_NUMBERS", "")) == ns;
    assert GetAuthorizedNumbers(env) == set x | x in ns;
    assert n in GetAuthorizedNumbers(env) <==> n in ns;
  }

  /** One piece of `ADMINS`, as the loop at config.py:37-44 treats it. */
  datatype AdminPiece = Blank | AdminId(id: int) | BadId(piece: string)

  function ClassifyAdminPiece(raw: string): AdminPiece {
    var a := Strip(raw);
    if a == "" then Blank
    else match ParseInt(a)
      case Some(n) => AdminId(n)
      case None => BadId(a)
  }

  /** The ids that the loop appends for `pieces`, in order. */
  function AdminIdsOf(pieces: seq<string>): seq<int> {
    if pieces == [] then []
    else
      var last := ClassifyAdminPiece(pieces[|pieces| - 1]);
      AdminIdsOf(pieces[..|pieces| - 1]) + (if last.AdminId? then [last.id] else [])
  }

  /** The warnings the loop logs for `pieces`, in order. */
  function AdminWarningsOf(pieces: seq<string>): seq<ConfigWarning> {
    if pieces == [] then []
    else
      var last := ClassifyAdminPiece(pieces[|pieces| - 1]);
      AdminWarningsOf(pieces[..|pieces| - 1]) + (if last.BadId? then [BadAdminId(last.piece)] else [])
  }

  /** config.py:36-44: `ADMIN_IDS` and the warnings for the pieces that are not integers. */
  method ParseAdminIds(raw: string) returns (ids: seq<int>, warnings: seq<ConfigWarning>)
    ensures ids == AdminIdsOf(Split(raw, ','))
    ensures warnings == AdminWarningsOf(Split(raw, ','))
  {
    var pieces := Split(raw, ',');
    ids, warnings := [], [];
    var i := 0;
    while i < |pieces|
      invariant 0 <= i <= |pieces|
      invariant ids == AdminIdsOf(pieces[..i])
      invariant warnings == AdminWarningsOf(pieces[..i])
    {
      assert pieces[..i + 1][..i] == pieces[..i];
      var admin := Strip(pieces[i]);
      if admin != "" {
        var parsed := ParseInt(admin);
        if parsed.Some? {
          ids := ids + [parsed.value];
        } else {
          warnings := warnings + [BadAdminId(admin)];
        }
      }
      i := i + 1;
    }
    assert pieces[..i] == pieces;
  }

  /** Every admin id is the integer value of some non-blank piece of `ADMINS`. */
  lemma {:induction false} AdminIdsFromPieces(pieces: seq<string>, k: int)
    requires 0 <= k < |AdminIdsOf(pieces)|
    ensures exists j :: 0 <= j < |pieces| && ClassifyAdminPiece(pieces[j]) == AdminId(AdminIdsOf(pieces)[k])
  {
    var init := pieces[..|pieces| - 1];
    var last := ClassifyAdminPiece(pieces[|pieces| - 1]);
    assert AdminIdsOf(pieces) == AdminIdsOf(init) + (if last.AdminId? then [last.id] else []);
    if k < |AdminIdsOf(init)| {
      AdminIdsFromPieces(init, k);
      var j :| 0 <= j < |init| && ClassifyAdminPiece(init[j]) == AdminId(AdminIdsOf(init)[k]);
      assert pieces[j] == init[j];
    } else {
      assert ClassifyAdminPiece(pieces[|pieces| - 1]) == AdminId(AdminIdsOf(pieces)[k]);
    }
  }

  function DecimalList(ids: seq<int>): (r: seq<string>)
    ensures |r| == |ids|
    ensures forall i :: 0 <= i < |r| ==> ',' !in r[i]
  {
    if ids == [] then [] else DecimalList(ids[..|ids| - 1]) + [IntToString(ids[|ids| - 1])]
  }

  /** `ADMINS` written as `",".join(str(i) for i in ids)` is read back as exactly `ids`, with no warning. */
  lemma {:induction false} AdminIdsOfJoin(ids: seq<int>)
    requires ids != []
    ensures AdminIdsOf(Split(Join(DecimalList(ids), ","), ',')) == ids
    ensures AdminWarningsOf(Split(Join(DecimalList(ids), ","), ',')) == []
  {
    SplitJoin(DecimalList(ids), ',');
    DecimalIdsRead(ids);
  }

  /** The loop's results for one more piece: the piece's id or warning, if any, comes last. */
  lemma AdminPiecesSnoc(pieces: seq<string>, x: string)
    ensures var c := ClassifyAdminPiece(x);
      && AdminIdsOf(pieces + [x]) == AdminIdsOf(pieces) + (if c.AdminId? then [c.id] else [])
      && AdminWarningsOf(pieces + [x]) == AdminWarningsOf(pieces) + (if c.BadId? then [BadAdminId(c.piece)] else [])
  {
    assert (pieces + [x])[..|pieces|] == pieces;
  }

  lemma {:induction false} DecimalIdsRead(ids: seq<int>)
    ensures AdminIdsOf(DecimalList(ids)) == ids
    ensures AdminWarningsOf(DecimalList(ids)) == []
  {
    if ids != [] {
      var init, last := ids[..|ids| - 1], ids[|ids| - 1];
      assert DecimalList(ids) == DecimalList(init) + [IntToString(last)];
      DecimalIdsRead(init);
      DecimalIdClassified(last);
      AdminPiecesSnoc(DecimalList(init), IntToString(last));
      assert ids == init + [last];
    }
  }

  /** A decimal rendering is a well-formed admin id. */
  lemma DecimalIdClassified(i: int)
    ensures ClassifyAdminPiece(IntToString(i)) == AdminId(i)
  {
    ParseIntToString(i);
    var s := IntToString(i);
    var n: nat := if i < 0 then -i else i;
    assert s[|s| - 1] == NatToString(n)[|NatToString(n)| - 1];
    StripOfStripped(s);
  }

  /** `int(os.getenv(key, default))`: `None` where `int()` raises. */
  function IntSetting(env: Env, key: string, default: int): Option<int> {
    if key in env then ParseInt(env[key]) else Some(default)
  }

  /** config.py:50-64: the three flood settings, parsed in order, then range-checked in order. */
  function FloodSettingsOf(env: Env): (r: Result<FloodSettings, ConfigError>)
    ensures r.Success? ==> r.value.limit > 0 && r.value.period > 0 && r.value.blockTime >= 0
    ensures r.Success? <==>
      && IntSetting(env, "FLOOD_LIMIT", DefaultFloodLimit).Some?
      && IntSetting(env, "FLOOD_PERIOD", DefaultFloodPeriod).Some?
      && IntSetting(env, "FLOOD_BLOCK_TIME", DefaultFloodBlockTime).Some?
      && IntSetting(env, "FLOOD_LIMIT", DefaultFloodLimit).value > 0
      && IntSetting(env, "FLOOD_PERIOD", DefaultFloodPeriod).value > 0
      && IntSetting(env, "FLOOD_BLOCK_TIME", DefaultFloodBlockTime).value >= 0
    ensures r.Success? ==> r.value == FloodSettings(
      IntSetting(env, "FLOOD_LIMIT", DefaultFloodLimit).value,
      IntSetting(env, "FLOOD_PERIOD", DefaultFloodPeriod).value,
      IntSetting(env, "FLOOD_BLOCK_TIME", DefaultFloodBlockTime).value)
  {
    var limit := IntSetting(env, "FLOOD_LIMIT", DefaultFloodLimit);
    var period := IntSetting(env, "FLOOD_PERIOD", DefaultFloodPeriod);
    var blockTime := IntSetting(env, "FLOOD_BLOCK_TIME", DefaultFloodBlockTime);
    if limit.None? then Failure(FloodSettingNotInt(env["FLOOD_LIMIT"]))
    else if period.None? then Failure(FloodSettingNotInt(env["FLOOD_PERIOD"]))
    else if blockTime.None? then Failure(FloodSettingNotInt(env["FLOOD_BLOCK_TIME"]))
    else if limit.value <= 0 then Failure(FloodLimitNotPositive)
    else if period.value <= 0 then Failure(FloodPeriodNotPositive)
    else if blockTime.value < 0 then Failure(FloodBlockTimeNegative)
    else Success(FloodSettings(limit.value, period.value, blockTime.value))
  }

  /** With none of the three variables set, the flood gate allows 5 messages per 10 s and blocks for 15 s. */
  lemma FloodDefaults(env: Env)
    requires "FLOOD_LIMIT" !in env && "FLOOD_PERIOD" !in env && "FLOOD_BLOCK_TIME" !in env
    ensures FloodSettingsOf(env) == Success(FloodSettings(5, 10, 15))
  {
  }

  /** config.py:67-70: `BLOCK_DURATION`, 300 when unset; a value `int()` rejects raises. */
  function BlockDurationOf(env: Env): (r: Result<int, ConfigError>)
    ensures "BLOCK_DURATION" !in env ==> r == Success(DefaultBlockDuration)
    ensures "BLOCK_DURATION" in env ==>
      (r.Success? <==> ParseInt(env["BLOCK_DURATION"]).Some?) &&
      (r.Success? ==> r.value == ParseInt(env["BLOCK_DURATION"]).value)
  {
    match IntSetting(env, "BLOCK_DURATION", DefaultBlockDuration)
    case Some(d) => Success(d)
    case None => Failure(BlockDurationNotInt(env["BLOCK_DURATION"]))
  }

  /** config.py:28-30: a missing or empty `BOT_TOKEN` raises. */
  function BotTokenOf(env: Env): (r: Result<string, ConfigError>)
    ensures r.Success? <==> "BOT_TOKEN" in env && env["BOT_TOKEN"] != ""
    ensures r.Success? ==> r.value == env["BOT_TOKEN"]
  {
    if "BOT_TOKEN" in env && env["BOT_TOKEN"] != "" then Success(env["BOT_TOKEN"]) else Failure(MissingBotToken)
  }

  /** config.py:32: a token not starting with 5, 6 or 1 only draws a warning. */
  predicate SuspiciousBotToken(token: string) {
    !(StartsWith(token, "5") || StartsWith(token, "6") || StartsWith(token, "1"))
  }

  /**
   * Importing config.py: every setting in the order the module computes them; the first
   * `raise` decides the error, and the warnings are collected in the order they are logged.
   */
  method LoadSettings(env: Env) returns (r: Result<Settings, ConfigError>)
    ensures BotTokenOf(env).Failure? ==> r == Failure(MissingBotToken)
    ensures r.Success? <==> BotTokenOf(env).Success? && FloodSettingsOf(env).Success? && BlockDurationOf(env).Success?
    ensures BotTokenOf(env).Success? && FloodSettingsOf(env).Failure? ==> r == Failure(FloodSettingsOf(env).error)
    ensures r.Success? ==>
      && r.value.authorizedNumbers == GetAuthorizedNumbers(env)
      && r.value.botToken == env["BOT_TOKEN"]
      && r.value.adminIds == AdminIdsOf(Split(GetEnvOr(env, "ADMINS", ""), ','))
      && r.value.flood == FloodSettingsOf(env).value
      && r.value.blockDuration == BlockDurationOf(env).value
      && r.value.warnings == WarningsOf(env, r.value)
    ensures BotTokenOf(env).Success? && FloodSettingsOf(env).Success? && BlockDurationOf(env).Failure? ==>
      r == Failure(BlockDurationOf(env).error)
  {
    var warnings: seq<ConfigWarning> := [];
    var numbers := GetAuthorizedNumbers(env);
    if numbers == {} {
      warnings := warnings + [NoAuthorizedNumbers];
    }
    ghost var a: seq<ConfigWarning> := if numbers == {} then [NoAuthorizedNumbers] else [];
    assert warnings == a;
    var token := BotTokenOf(env);
    if token.Failure? {
      return Failure(MissingBotToken);
    }
    ghost var b: seq<ConfigWarning> := if SuspiciousBotToken(token.value) then [SuspiciousToken] else [];
    if SuspiciousBotToken(token.value) {
      warnings := warnings + [SuspiciousToken];
    }
    assert warnings == a + b;
    var adminIds, adminWarnings := ParseAdminIds(GetEnvOr(env, "ADMINS", ""));
    warnings := warnings + adminWarnings;
    ghost var c: seq<ConfigWarning> := if adminIds == [] then [NoAdmins] else [];
    if adminIds == [] {
      warnings := warnings + [NoAdmins];
    }
    assert warnings == a + b + adminWarnings + c;
    var flood := FloodSettingsOf(env);
    if flood.Failure? {
      return Failure(flood.error);
    }
    var duration := BlockDurationOf(env);
    if duration.Failure? {
      return Failure(duration.error);
    }
    ghost var d: seq<ConfigWarning> := if duration.value < 10 then [ShortBlockDuration] else [];
    if duration.value < 10 {
      warnings := warnings + [ShortBlockDuration];
    }
    assert warnings == a + b + adminWarnings + c + d;
    r := Success(Settings(numbers, token.value, adminIds, flood.value, duration.value, warnings));
  }

  /** The warnings logged while the settings are computed, in the order they are logged. */
  function WarningsOf(env: Env, s: Settings): seq<ConfigWarning> {
    (if s.authorizedNumbers == {} then [NoAuthorizedNumbers] else [])
    + (if SuspiciousBotToken(s.botToken) then [SuspiciousToken] else [])
    + AdminWarningsOf(Split(GetEnvOr(env, "ADMINS", ""), ','))
    + (if s.adminIds == [] then [NoAdmins] else [])
    + (if s.blockDuration < 10 then [ShortBlockDuration] else [])
  }

  /**
   * A loaded configuration warns about an empty number list, an empty admin list and a
   * block shorter than 10 seconds exactly when they occur, and about every unparsable admin piece.
   */
  lemma LoadedWarnings(env: Env, s: Settings)
    ensures var w := WarningsOf(env, s);
      && (s.blockDuration < 10 <==> ShortBlockDuration in w)
      && (s.authorizedNumbers == {} <==> NoAuthorizedNumbers in w)
      && (s.adminIds == [] <==> NoAdmins in w)
      && (SuspiciousBotToken(s.botToken) <==> SuspiciousToken in w)
      && (forall p :: BadAdminId(p) in w <==> BadAdminId(p) in AdminWarningsOf(Split(GetEnvOr(env, "ADMINS", ""), ',')))
  {
    var bad := AdminWarningsOf(Split(GetEnvOr(env, "ADMINS", ""), ','));
    AdminWarningsAreBadIds(Split(GetEnvOr(env, "ADMINS", ""), ','));
    var a := if s.authorizedNumbers == {} then [NoAuthorizedNumbers] else [];
    var b := if SuspiciousBotToken(s.botToken) then [SuspiciousToken] else [];
    var c := if s.adminIds == [] then [NoAdmins] else [];
    var d := if s.blockDuration < 10 then [ShortBlockDuration] else [];
    assert WarningsOf(env, s) == a + b + bad + c + d;
    InFive(ShortBlockDuration, a, b, bad, c, d);
    InFive(NoAuthorizedNumbers, a, b, bad, c, d);
    InFive(NoAdmins, a, b, bad, c, d);
    InFive(SuspiciousToken, a, b, bad, c, d);
    forall p
      ensures BadAdminId(p) in WarningsOf(env, s) <==> BadAdminId(p) in bad
    {
      InFive(BadAdminId(p), a, b, bad, c, d);
    }
  }

  lemma InFive<T>(x: T, a: seq<T>, b: seq<T>, c: seq<T>, d: seq<T>, e: seq<T>)
    ensures x in a + b + c + d + e <==> x in a || x in b || x in c || x in d || x in e
  {
  }

  lemma {:induction false} AdminWarningsAreBadIds(pieces: seq<string>)
    ensures forall w :: w in AdminWarningsOf(pieces) ==> w.BadAdminId?
  {
    if pieces != [] {
      AdminWarningsAreBadIds(pieces[..|pieces| - 1]);
    }
  }
}
