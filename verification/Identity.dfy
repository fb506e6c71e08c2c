/** Matching discovered modems to configured devices (internal/device/identity_resolver.go). */
module Identity {
  import opened Text
  import opened Deduplication
  import M = Matching
  import opened SharedIds

  datatype DeviceConfig = DeviceConfig(id: string, modemIMEI: string, usbPath: string, controlDevice: string, iface: string)

  datatype Modem = Modem(imei: string, mode: string, usbPath: string, controlPath: string, netInterface: string)

  /** A pair carries the IMEI to write back to a config that had none. */
  type MatchedPair = M.Pair<DeviceConfig, Modem, string>

  type ResolveResult = M.Result<DeviceConfig, Modem, string>

  // ---------- Keys, ranks and paths

  function Digits(s: string): string {
    if s == [] then [] else (if '0' <= s[0] <= '9' then [s[0]] else []) + Digits(s[1..])
  }

  /** The TAC and SNR of an IMEI: its first 14 digits, or nothing when there are fewer (3GPP TS 23.003,
      section 6.2.1). */
  function NormalizeIMEI(raw: string): (key: string)
    ensures if |Digits(raw)| < 14 then key == "" else |key| == 14 && key <= Digits(raw)
  {
    var digits := Digits(raw);
    if |digits| < 14 then "" else digits[..14]
  }

  function HardwareKey(hw: Modem): string {
    NormalizeIMEI(hw.imei)
  }

  function ConfigKey(cfg: DeviceConfig): string {
    NormalizeIMEI(cfg.modemIMEI)
  }

  function CompositionRank(mode: string): nat {
    RankOf(ToLower(TrimSpace(mode)))
  }

  function RankOf(m: string): nat {
    if m == "qmi" then 5 else if m == "mbim" then 4 else if m == "ncm" then 3 else if m == "ecm" then 2
    else if m == "rndis" then 1 else 0
  }

  /** Two known USB paths decide alone; otherwise a common control device or interface name does. */
  predicate LegacyPathMatch(cfg: DeviceConfig, hw: Modem) {
    var cfgUSB, hwUSB := TrimSpace(cfg.usbPath), TrimSpace(hw.usbPath);
    if cfgUSB != "" && hwUSB != "" then cfgUSB == hwUSB
    else
      || (TrimSpace(cfg.controlDevice) != "" && TrimSpace(cfg.controlDevice) == TrimSpace(hw.controlPath))
      || (TrimSpace(cfg.iface) != "" && TrimSpace(cfg.iface) == TrimSpace(hw.netInterface))
  }

  /** The modes in order of preference, in lower case. */
  datatype Mode = QMI | MBIM | NCM | ECM | RNDIS | Other

  ghost predicate IsMode(m: string, mode: Mode) {
    match mode
    case QMI => m == "qmi"
    case MBIM => m == "mbim"
    case NCM => m == "ncm"
    case ECM => m == "ecm"
    case RNDIS => m == "rndis"
    case Other => m != "qmi" && m != "mbim" && m != "ncm" && m != "ecm" && m != "rndis"
  }

  lemma RankIs(m: string, mode: Mode)
    requires IsMode(m, mode)
    ensures RankOf(m) == match mode case QMI => 5 case MBIM => 4 case NCM => 3 case ECM => 2 case RNDIS => 1 case Other => 0
  {
    match mode
    case QMI =>
    case MBIM => assert |m| == 4;
    case NCM => assert m[0] == 'n';
    case ECM => assert m[0] == 'e';
    case RNDIS => assert |m| == 5;
    case Other =>
  }

  /** QMI is preferred to MBIM, that to NCM, that to ECM, that to RNDIS, and that to anything else, in whatever case the
      mode is written. */
  lemma RanksInOrder(a: string, b: string, m: Mode, n: Mode)
    requires IsMode(ToLower(TrimSpace(a)), m) && IsMode(ToLower(TrimSpace(b)), n)
    ensures CompositionRank(a) > CompositionRank(b) <==>
            match m
            case QMI => n != QMI
            case MBIM => n !in {QMI, MBIM}
            case NCM => n in {ECM, RNDIS, Other}
            case ECM => n in {RNDIS, Other}
            case RNDIS => n == Other
            case Other => false
  {
    RankIs(ToLower(TrimSpace(a)), m);
    RankIs(ToLower(TrimSpace(b)), n);
  }

  /** A difference between known USB paths is a veto whatever else agrees, and their equality is enough; where one of
      them is not known, a common control device or interface name is needed and enough. */
  lemma PathsDecide(cfg: DeviceConfig, hw: Modem)
    ensures TrimSpace(cfg.usbPath) != "" && TrimSpace(hw.usbPath) != "" && TrimSpace(cfg.usbPath) != TrimSpace(hw.usbPath) ==>
              !LegacyPathMatch(cfg, hw)
    ensures TrimSpace(cfg.usbPath) != "" && TrimSpace(cfg.usbPath) == TrimSpace(hw.usbPath) ==> LegacyPathMatch(cfg, hw)
    ensures TrimSpace(cfg.usbPath) == "" || TrimSpace(hw.usbPath) == "" ==>
              (LegacyPathMatch(cfg, hw) <==>
               || TrimSpace(cfg.controlDevice) == TrimSpace(hw.controlPath) != ""
               || TrimSpace(cfg.iface) == TrimSpace(hw.netInterface) != "")
  {}

  // ---------- Deduplication

  function HardwareRank(hw: Modem): nat {
    CompositionRank(hw.mode)
  }

  /** Merge the compositions of one modem into one entry. */
  method DedupeCompositions(hardware: seq<Modem>) returns (out: seq<Modem>)
    ensures IsDeduplicated(hardware, HardwareKey, "", HardwareRank, out)
  {
    out := Dedupe(hardware, HardwareKey, "", HardwareRank);
  }

  // ---------- Resolution

  function RealTimeIMEI(hw: Modem): string {
    TrimSpace(hw.imei)
  }

  function ConfigID(cfg: DeviceConfig): string {
    cfg.id
  }

  function IdentityRules(): M.Rules<DeviceConfig, Modem, string, string, string> {
    M.Rules(ConfigKey, HardwareKey, "", ConfigID, LegacyPathMatch, RealTimeIMEI, "")
  }

  /** The hardware was deduplicated and the result resolves what that left. */
  ghost predicate IsResolved(hardware: seq<Modem>, configured: seq<DeviceConfig>, res: ResolveResult) {
    exists primary :: IsDeduplicated(hardware, HardwareKey, "", HardwareRank, primary)
                      && M.Resolves(IdentityRules(), primary, configured, res)
  }

  /** The one place where hardware and configurations are matched. */
  method ResolveDeviceIdentities(hardware: seq<Modem>, configured: seq<DeviceConfig>) returns (res: ResolveResult)
    ensures IsResolved(hardware, configured, res)
    ensures M.DistinctIds(configured, ConfigID) ==> M.MatchedOnce(IdentityRules(), res.matched)
  {
    var primary := DedupeCompositions(hardware);
    OnePerKey(hardware, HardwareKey, "", HardwareRank, primary);
    assert M.DistinctKeys(primary, HardwareKey, "");
    res := M.Resolve(IdentityRules(), primary, configured);
  }

  /** A configured device that has an IMEI is matched only to a modem with the same first 14 digits; one without is
      matched by path, and gets the modem's IMEI written back if that is known. */
  lemma MatchedByIdentity(hardware: seq<Modem>, configured: seq<DeviceConfig>, res: ResolveResult, i: nat)
    requires IsResolved(hardware, configured, res) && i < |res.matched|
    ensures var cfg, hw := res.matched[i].config, res.matched[i].hardware;
            && cfg in configured
            && (NormalizeIMEI(cfg.modemIMEI) != "" ==> NormalizeIMEI(hw.imei) == NormalizeIMEI(cfg.modemIMEI) && res.matched[i].backfill == "")
            && (NormalizeIMEI(cfg.modemIMEI) == "" ==>
                  && LegacyPathMatch(cfg, hw)
                  && res.matched[i].backfill == if NormalizeIMEI(hw.imei) != "" then TrimSpace(hw.imei) else "")
  {
    var primary :| IsDeduplicated(hardware, HardwareKey, "", HardwareRank, primary) && M.Resolves(IdentityRules(), primary, configured, res);
    assert M.PairOk(IdentityRules(), configured, res.matched[i]);
  }

  /** A modem fits a path with or without a known IMEI. */
  lemma PathsIgnoreIMEI()
    ensures PathsIgnoreKeys(IdentityRules())
  {
    var r := IdentityRules();
    forall c: DeviceConfig, h: Modem | r.pathMatch(c, h) ensures exists k: Modem :: r.hardwareKey(k) == r.none && r.pathMatch(c, k) {
      var k := h.(imei := "");
      assert NormalizeIMEI("") == "";
      assert r.hardwareKey(k) == r.none && r.pathMatch(c, k);
    }
  }

  /** If no configured device that a modem can be matched to shares its id with another, every configured device is
      matched or offline whatever modems are found; otherwise some modems hide one however they are resolved. */
  lemma SharedConfigIds(configured: seq<DeviceConfig>)
    ensures Unshared(IdentityRules(), configured) <==>
            forall primary: seq<Modem>, res: ResolveResult ::
              M.DistinctKeys(primary, HardwareKey, "") && M.Resolves(IdentityRules(), primary, configured, res) ==>
                AllShown(IdentityRules(), configured, res)
    ensures !Unshared(IdentityRules(), configured) <==>
            exists primary: seq<Modem> :: M.DistinctKeys(primary, HardwareKey, "") && Hides(IdentityRules(), configured, primary)
  {
    PathsIgnoreIMEI();
    SharedIdsDecide(IdentityRules(), configured);
  }

  // ---------- The key

  lemma {:induction false} DigitsOfConcat(a: string, b: string)
    ensures Digits(a + b) == Digits(a) + Digits(b)
  {
    if a == [] {
      assert a + b == b;
    } else {
      DigitsOfConcat(a[1..], b);
      assert (a + b)[1..] == a[1..] + b && (a + b)[0] == a[0];
      Regroup(if '0' <= a[0] <= '9' then [a[0]] else [], Digits(a[1..]), Digits(b));
    }
  }

  lemma Regroup(a: string, b: string, c: string)
    ensures a + (b + c) == (a + b) + c
  {}

  /** What follows the first 14 digits, such as a check digit or software version, is no part of the key. */
  lemma KeyIgnoresTheRest(raw: string, rest: string)
    requires NormalizeIMEI(raw) != ""
    ensures NormalizeIMEI(raw + rest) == NormalizeIMEI(raw)
  {
    DigitsOfConcat(raw, rest);
  }

  lemma {:induction false} DigitsOnly(s: string)
    ensures forall i :: 0 <= i < |Digits(s)| ==> '0' <= Digits(s)[i] <= '9'
    ensures (forall i :: 0 <= i < |s| ==> '0' <= s[i] <= '9') ==> Digits(s) == s
  {
    if s != [] {
      DigitsOnly(s[1..]);
      assert s == [s[0]] + s[1..];
    }
  }

  /** A key is its own key, whatever separators surrounded the digits. */
  lemma KeyIsStable(raw: string)
    ensures NormalizeIMEI(NormalizeIMEI(raw)) == NormalizeIMEI(raw)
  {
    DigitsOnly(raw);
    var key := NormalizeIMEI(raw);
    DigitsOnly(key);
    assert |key| == 14 ==> key[..14] == key;
  }
}
