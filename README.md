# Network bootstrap sequencer and service descriptor of the Pico W mDNS example

This project models the part of the mDNS example firmware that has real logic, all of
which lives in `src/porky_mdns.rs`:

- the **security policy mapper**, which turns a security-mode name (`"open"`, `"wpa"`,
  `"wpa2"`, `"wpa3"`, matched exactly and case-sensitively) into the authentication
  selector used to join the access point;
- the **join sequencer** `join`, which makes at most three join attempts. Each attempt
  resolves the security mode first and returns at once, with no join call, when the
  mode is unsupported. The first accepted join hands over to `wait_for_ip`. When every
  attempt is rejected, it fails with a retries-exhausted error;
- the **address wait** `wait_for_ip`, which polls the stack's "configuration up" flag
  until it is set and then reads the IPv4 configuration. A missing configuration is an
  error, not a crash;
- the **service descriptor**: the `Host` and `Service` records built for the mDNS
  responder, and the service-type constants `_pigg`, `_tcp` and `_pigg._tcp.local.`.

The radio and the IP stack are oracles. The radio reads its answers to successive join
calls from a sequence of `LinkOutcome`, in order; `Join` requires one answer for each of
the three possible attempts. The stack is a sequence of poll results plus an optional
IPv4 configuration. `WaitForIp` requires the flag to come up at some poll: the firmware
would otherwise poll forever. `Join` requires that only when a join is accepted, since
only then does it poll. `Join` returns its result, the list of join calls it made (the
number of join calls is the length of that list) and the number of polls made.

`join` and `wait_for_ip` are imperative: they are methods with loops and loop
invariants. They are proved against reference functions (`JoinResult`, `JoinRequests`,
`AttemptsUsed`, `ConfiguredAddress`), and the lemmas state the sequencer's properties
about those functions. The mapper and the descriptors are pure functions.

Modules: `NetTypes` (`types.dfy`: integers, addresses, the three errors),
`Security` (`security.dfy`), `Bootstrap` (`bootstrap.dfy`), `Descriptor` (`descriptor.dfy`).

The attempt bound is the constant 3 of `join`'s loop (line 71). A rejected join is not
an error of its own: the radio's error is discarded (line 95) and counts as one failed
attempt.

## Model

| member | source | states |
|---|---|---|
| Security.AuthFromMode | src/porky_mdns.rs:79-88 | the mode resolves exactly when it is one of the four names; it yields the selector whose name it is; every other string is UnsupportedSecurity |
| Security.CaseVariantsUnsupported | src/porky_mdns.rs:79-87 | capitalised spellings and the empty string are UnsupportedSecurity |
| Security.BuiltInModeIsWpa2 | src/porky_mdns.rs:37 | the built-in security mode resolves to WPA2 |
| Bootstrap.ConfiguredAddress | src/porky_mdns.rs:62-63 | reading the configuration gives its address when one is present and AddressConfigMissing when none is |
| Bootstrap.WaitForIp | src/porky_mdns.rs:57-64 | returns only at the first poll whose flag is up, after every earlier poll saw it down; the result is the configured address, or AddressConfigMissing when there is no configuration |
| Bootstrap.AttemptsUsed | src/porky_mdns.rs:70-99 | with a supported mode the sequencer makes between 1 and 3 join calls; every call before the last was rejected; the last was accepted unless all 3 were rejected |
| Bootstrap.Join | src/porky_mdns.rs:66-103 | the loop (attempt in 1..4, attempt - 1 calls made so far, all of them rejected) returns JoinResult and makes exactly the calls JoinRequests lists; after an accepted join the number of polls is one past the first poll that saw the configuration up, and otherwise no poll is made; the stack need only come up when a join is accepted |
| Bootstrap.UnsupportedModeMakesNoCall | src/porky_mdns.rs:79-90 | an unsupported mode makes no join call and gives UnsupportedSecurity |
| Bootstrap.AllRejectedExhaustsRetries | src/porky_mdns.rs:70-102 | when the radio rejects all attempts, exactly 3 join calls are made and the result is RetriesExhausted |
| Bootstrap.FirstAcceptedJoinEndsSequence | src/porky_mdns.rs:90-94 | when attempt k + 1 is the first accepted one, exactly k + 1 calls are made and the result is that of the address wait |
| Bootstrap.JoinSucceedsIff | src/porky_mdns.rs:66-103 | the result is an address exactly when the mode is supported, an attempt within the bound is accepted and a configuration is present; the address is the configured one |
| Bootstrap.RequestsCarryResolvedAuth | src/porky_mdns.rs:77-90 | 1 to 3 join calls are made. Each carries the network name, the passphrase and the selector the mode names; the auth field set in place is always set before the call |
| Bootstrap.BuiltInModeJoinsWithWpa2 | src/porky_mdns.rs:79-90 | with the built-in mode the sequencer never reports UnsupportedSecurity and every join uses WPA2 |
| Descriptor.ServiceTypeFromLabels | src/porky_mdns.rs:31-33 | the service-type constant equals the service-name constant, a dot, the protocol constant and `.local.` |
| Descriptor.ResponderHost | src/porky_mdns.rs:180-185 | the host is named `host1` and carries the given IPv4 address, the unspecified IPv6 address and a TTL of 60 seconds |
| Descriptor.ResponderService | src/porky_mdns.rs:188-202 | the instance name is the serial number; priority is 1, weight 5, no subtypes; the TXT attributes are Serial, Model, AppName, AppVersion, in that order, with distinct keys and the given values |
| Descriptor.TxtLookupDistinct | src/porky_mdns.rs:196-201 | in an attribute list with distinct keys, looking up any attribute's key gives that attribute's value |
| Descriptor.ServiceTxtLookups | src/porky_mdns.rs:196-201 | each of the four TXT keys looks up its configured value; the Serial value equals the instance name |
| Descriptor.ServiceAdvertisesPiggType | src/porky_mdns.rs:31-33 | a service built from the service-name and protocol constants advertises the `_pigg._tcp.local.` type |

## Left out

- Device start-up (`start_net`, `main`, interrupt binding, pin, PIO, SPI and DMA setup, firmware blobs, RNG seeding): peripheral wiring with no behaviour to state.
- The `wifi_task` and `net_task` driver loops: they run concurrently and never return.
- The mDNS protocol itself (socket binding, the responder loop, query parsing and answer synthesis). These happen in the `edge_mdns` library, which is not part of this model. Only the host and service records handed to it are modelled.
- The 100 ms delay between polls: there is no clock, and polling steps through the poll sequence. There is no delay between join attempts in the firmware, so none is modelled.
- Joining the mDNS multicast group at the link layer: its result is ignored and it is a link-layer side effect.
- Logging, `unwrap` panics in start-up, and the build-time application name and version strings. The name and version are opaque string parameters.
- The network name and passphrase constants: credentials are a parameter of `Join`. The passphrase is kept as a string, not converted to bytes.
- The default auth selector of the radio library's `JoinOptions::new` is not part of this model. It is `None` in `JoinOptions`; the sequencer always overwrites it before joining.
- The gateway and DNS servers of the stack's IPv4 configuration: only its address and prefix length are modelled.
- Bootstrap.WaitForIp: requires that the flag comes up at some poll. When it never does, the firmware waits forever, and that run is not modelled.
- Bootstrap.Join: requires an answer from the radio for each of the three attempts, even those the sequencer never reaches (the oracle is a fixed script, so unread entries change nothing), and, after an accepted join, that the flag comes up; a run that then waits forever is not modelled.
