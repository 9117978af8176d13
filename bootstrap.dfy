/** The network bootstrap sequencer: join the access point with bounded retry, then
    wait for the stack to report an IPv4 configuration.

    The radio and the IP stack are oracles. The radio's answers to successive join
    calls are a sequence of LinkOutcome, consumed in order; the stack's answers to
    successive "is the configuration up?" polls are a sequence of booleans, and its
    IPv4 configuration, read once the flag is up, is an Option. */
module Bootstrap {
  import opened NetTypes
  import opened Security

  /** How many join attempts the sequencer makes before giving up. */
  const MaxAttempts: nat := 3

  /** The network to join: its name, its passphrase and its security-mode name. */
  datatype Credentials = Credentials(ssid: string, passphrase: string, security: string)

  /** The options handed to the radio with a join. `auth` is None while it still holds
      the radio library's own default, which the sequencer always overwrites. */
  datatype JoinOptions = JoinOptions(passphrase: string, auth: Option<Auth>)

  /** One call made to the radio's join operation. */
  datatype JoinRequest = JoinRequest(ssid: string, options: JoinOptions)

  /** The radio's answer to one join call. */
  datatype LinkOutcome = Associated | Rejected

  type PrefixLen = x: int | 0 <= x <= 32

  /** An address with its network prefix length. */
  datatype Ipv4Cidr = Ipv4Cidr(address: Ipv4Addr, prefixLen: PrefixLen)

  /** The IPv4 configuration the stack holds once DHCP has completed. */
  datatype StaticConfigV4 = StaticConfigV4(address: Ipv4Cidr)

  /** The position of the first occurrence of `x` in `s`. */
  function FirstIndex<T(==)>(s: seq<T>, x: T): (k: nat)
    requires x in s
    ensures k < |s| && s[k] == x
    ensures forall j :: 0 <= j < k ==> s[j] != x
    decreases |s|
  {
    if s[0] == x then 0 else 1 + FirstIndex(s[1..], x)
  }

  /** What reading the stack's IPv4 configuration yields: its address, or
      AddressConfigMissing when there is none. */
  function ConfiguredAddress(config: Option<StaticConfigV4>): (r: Result<Ipv4Addr>)
    ensures r.Ok? <==> config.Some?
    ensures r.Ok? ==> r.value == config.value.address.address
    ensures r.Err? ==> r.error == AddressConfigMissing
  {
    match config
    case None => Err(AddressConfigMissing)
    case Some(c) => Ok(c.address.address)
  }

  /** Polls the configuration flag until it is up, then reads the configuration.
      `observed` is the number of polls made: the flag was down on every poll but the
      last, so the method never returns while the flag is down. A missing configuration
      is an error result, never a crash. */
  method WaitForIp(polls: seq<bool>, config: Option<StaticConfigV4>)
    returns (r: Result<Ipv4Addr>, observed: nat)
    requires true in polls
    ensures 0 < observed <= |polls| && polls[observed - 1]
    ensures forall j :: 0 <= j < observed - 1 ==> !polls[j]
    ensures r == ConfiguredAddress(config)
  {
    var i := 0;
    while !polls[i]
      invariant 0 <= i < |polls|
      invariant true in polls[i..]
      invariant forall j :: 0 <= j < i ==> !polls[j]
      decreases |polls| - i
    {
      assert polls[i..] == [polls[i]] + polls[i + 1..];
      i := i + 1;
    }
    observed := i + 1;
    match config {
      case None =>
        r := Err(AddressConfigMissing);
      case Some(c) =>
        r := Ok(c.address.address);
    }
  }

  /** The request the sequencer sends once the security mode has resolved to `auth`. */
  function RequestFor(cred: Credentials, auth: Auth): JoinRequest {
    JoinRequest(cred.ssid, JoinOptions(cred.passphrase, Some(auth)))
  }

  /** Whether the radio accepts one of the first MaxAttempts join calls. */
  predicate AssociatesInTime(link: seq<LinkOutcome>)
    requires |link| >= MaxAttempts
  {
    Associated in link[..MaxAttempts]
  }

  /** How many join calls a sequencer with a supported mode makes: up to and including
      the first accepted one, or all MaxAttempts when none is accepted. */
  function AttemptsUsed(link: seq<LinkOutcome>): (n: nat)
    requires |link| >= MaxAttempts
    ensures 1 <= n <= MaxAttempts
    ensures forall i :: 0 <= i < n - 1 ==> link[i] == Rejected
    ensures AssociatesInTime(link) ==> link[n - 1] == Associated
    ensures !AssociatesInTime(link) ==>
      n == MaxAttempts && forall i :: 0 <= i < MaxAttempts ==> link[i] == Rejected
  {
    if AssociatesInTime(link) then
      var k := FirstIndex(link[..MaxAttempts], Associated);
      assert forall i :: 0 <= i < k ==> link[..MaxAttempts][i] == link[i];
      k + 1
    else
      assert forall i :: 0 <= i < MaxAttempts ==> link[..MaxAttempts][i] == link[i];
      MaxAttempts
  }

  /** Reference definition of the join calls the sequencer makes: none when the mode is
      unsupported, otherwise AttemptsUsed copies of the resolved request. */
  function JoinRequests(cred: Credentials, link: seq<LinkOutcome>): seq<JoinRequest>
    requires |link| >= MaxAttempts
  {
    match AuthFromMode(cred.security)
    case Err(_) => []
    case Ok(auth) => seq(AttemptsUsed(link), _ => RequestFor(cred, auth))
  }

  /** Reference definition of the sequencer's result. */
  function JoinResult(cred: Credentials, link: seq<LinkOutcome>, config: Option<StaticConfigV4>)
    : Result<Ipv4Addr>
    requires |link| >= MaxAttempts
  {
    match AuthFromMode(cred.security)
    case Err(e) => Err(e)
    case Ok(_) =>
      if AssociatesInTime(link) then ConfiguredAddress(config) else Err(RetriesExhausted)
  }

  /** The join sequencer. Each attempt first resolves the security mode (an unsupported
      mode returns at once, before any join call), then asks the radio to join; the
      first accepted join hands over to WaitForIp, and each rejection counts one more
      attempt. `requests` lists the join calls made, in order; `polled` is the number of
      configuration polls made, none unless a join was accepted. The stack is only
      required to come up when a join is accepted, for only then is it polled. */
  method Join(cred: Credentials, link: seq<LinkOutcome>, polls: seq<bool>,
              config: Option<StaticConfigV4>)
    returns (r: Result<Ipv4Addr>, requests: seq<JoinRequest>, polled: nat)
    requires |link| >= MaxAttempts
    requires AuthFromMode(cred.security).Ok? && AssociatesInTime(link) ==> true in polls
    ensures r == JoinResult(cred, link, config)
    ensures requests == JoinRequests(cred, link)
    ensures AuthFromMode(cred.security).Ok? && AssociatesInTime(link) ==>
      polled == FirstIndex(polls, true) + 1
    ensures !(AuthFromMode(cred.security).Ok? && AssociatesInTime(link)) ==> polled == 0
  {
    var attempt := 1;
    requests := [];
    polled := 0;
    while attempt <= MaxAttempts
      invariant 1 <= attempt <= MaxAttempts + 1
      invariant |requests| == attempt - 1
      invariant attempt > 1 ==> AuthFromMode(cred.security).Ok?
      invariant forall i :: 0 <= i < |requests| ==>
        requests[i] == RequestFor(cred, AuthFromMode(cred.security).value)
      invariant forall i :: 0 <= i < attempt - 1 ==> link[i] == Rejected
    {
      var options := JoinOptions(cred.passphrase, None);
      match AuthFromMode(cred.security) {
        case Err(e) =>
          r := Err(e);
          return;
        case Ok(auth) =>
          options := options.(auth := Some(auth));
      }
      requests := requests + [JoinRequest(cred.ssid, options)];
      match link[attempt - 1] {
        case Associated =>
          assert link[..MaxAttempts][attempt - 1] == Associated;
          r, polled := WaitForIp(polls, config);
          ghost var first := FirstIndex(polls, true);
          assert !(first < polled - 1) && !(polled - 1 < first);
          return;
        case Rejected =>
          attempt := attempt + 1;
      }
    }
    assert forall i :: 0 <= i < MaxAttempts ==> link[..MaxAttempts][i] == Rejected;
    r := Err(RetriesExhausted);
  }

  /** An unsupported security mode makes no join call and fails with UnsupportedSecurity. */
  lemma UnsupportedModeMakesNoCall(cred: Credentials, link: seq<LinkOutcome>,
                                   config: Option<StaticConfigV4>)
    requires |link| >= MaxAttempts
    requires cred.security !in {"open", "wpa", "wpa2", "wpa3"}
    ensures JoinRequests(cred, link) == []
    ensures JoinResult(cred, link, config) == Err(UnsupportedSecurity)
  {
  }

  /** When the radio rejects every attempt, the sequencer makes exactly MaxAttempts
      join calls and reports RetriesExhausted. */
  lemma AllRejectedExhaustsRetries(cred: Credentials, link: seq<LinkOutcome>,
                                   config: Option<StaticConfigV4>)
    requires |link| >= MaxAttempts
    requires AuthFromMode(cred.security).Ok?
    requires forall i :: 0 <= i < MaxAttempts ==> link[i] == Rejected
    ensures |JoinRequests(cred, link)| == MaxAttempts
    ensures JoinResult(cred, link, config) == Err(RetriesExhausted)
  {
  }

  /** When the first accepted join is attempt k + 1, the sequencer makes exactly k + 1
      join calls and returns what waiting for the address returns. */
  lemma FirstAcceptedJoinEndsSequence(cred: Credentials, link: seq<LinkOutcome>,
                                      config: Option<StaticConfigV4>, k: nat)
    requires |link| >= MaxAttempts
    requires AuthFromMode(cred.security).Ok?
    requires k < MaxAttempts && link[k] == Associated
    requires forall j :: 0 <= j < k ==> link[j] == Rejected
    ensures |JoinRequests(cred, link)| == k + 1
    ensures JoinResult(cred, link, config) == ConfiguredAddress(config)
  {
  }

  /** The sequencer yields an address exactly when the mode is supported, some attempt
      within the bound is accepted and the stack holds a configuration; the address is
      the configured one. */
  lemma JoinSucceedsIff(cred: Credentials, link: seq<LinkOutcome>,
                        config: Option<StaticConfigV4>)
    requires |link| >= MaxAttempts
    ensures JoinResult(cred, link, config).Ok? <==>
      AuthFromMode(cred.security).Ok? && AssociatesInTime(link) && config.Some?
    ensures JoinResult(cred, link, config).Ok? ==>
      JoinResult(cred, link, config).value == config.value.address.address
  {
  }

  /** At most MaxAttempts join calls are made, each with the network name, the passphrase
      and the selector the mode names. */
  lemma RequestsCarryResolvedAuth(cred: Credentials, link: seq<LinkOutcome>, auth: Auth)
    requires |link| >= MaxAttempts
    requires cred.security == ModeName(auth)
    ensures 1 <= |JoinRequests(cred, link)| <= MaxAttempts
    ensures forall req :: req in JoinRequests(cred, link) ==>
      req.ssid == cred.ssid && req.options == JoinOptions(cred.passphrase, Some(auth))
  {
  }

  /** With the security mode the firmware is built with, the sequencer never reports
      UnsupportedSecurity and joins with WPA2. */
  lemma BuiltInModeJoinsWithWpa2(cred: Credentials, link: seq<LinkOutcome>,
                                 config: Option<StaticConfigV4>)
    requires |link| >= MaxAttempts
    requires cred.security == SsidSecurity
    ensures JoinResult(cred, link, config) != Err(UnsupportedSecurity)
    ensures forall req :: req in JoinRequests(cred, link) ==> req.options.auth == Some(Wpa2)
  {
  }
}
