/** The security policy mapper: a security-mode name becomes the authentication
    selector the radio is asked to join with. */
module Security {
  import opened NetTypes

  /** Authentication selectors the sequencer can hand to the radio. */
  datatype Auth = Open | Wpa | Wpa2 | Wpa3

  /** The security mode compiled into the firmware. */
  const SsidSecurity: string := "wpa2"

  /** The mode name that selects each authentication; the inverse of AuthFromMode. */
  function ModeName(auth: Auth): string {
    match auth
    case Open => "open"
    case Wpa => "wpa"
    case Wpa2 => "wpa2"
    case Wpa3 => "wpa3"
  }

  /** Resolves a security-mode name by exact, case-sensitive comparison against the four
      supported names; anything else is UnsupportedSecurity. The second ensures makes
      ModeName its inverse in both directions: each selector is reached from its own
      name, and a name that resolves is the name of the selector it yields. */
  function AuthFromMode(mode: string): (r: Result<Auth>)
    ensures r.Ok? <==> mode in {"open", "wpa", "wpa2", "wpa3"}
    ensures forall auth :: r == Ok(auth) <==> mode == ModeName(auth)
    ensures r.Err? ==> r.error == UnsupportedSecurity
  {
    if mode == "open" then Ok(Open)
    else if mode == "wpa" then Ok(Wpa)
    else if mode == "wpa2" then Ok(Wpa2)
    else if mode == "wpa3" then Ok(Wpa3)
    else Err(UnsupportedSecurity)
  }

  /** The match is case-sensitive: capitalised spellings of the supported names fail. */
  lemma CaseVariantsUnsupported()
    ensures AuthFromMode("Open") == Err(UnsupportedSecurity)
    ensures AuthFromMode("WPA") == Err(UnsupportedSecurity)
    ensures AuthFromMode("WPA2") == Err(UnsupportedSecurity)
    ensures AuthFromMode("Wpa3") == Err(UnsupportedSecurity)
    ensures AuthFromMode("") == Err(UnsupportedSecurity)
  {
  }

  /** The mode the firmware is built with selects WPA2. */
  lemma BuiltInModeIsWpa2()
    ensures AuthFromMode(SsidSecurity) == Ok(Wpa2)
  {
  }
}
