/** The service descriptor the mDNS responder advertises: the host record and the
    service record handed to the responder, and the service-type constants. The
    responder's query handling is not modelled; only the data it is given is. */
module Descriptor {
  import opened NetTypes

  const TcpMdnsServiceName: string := "_pigg"
  const TcpMdnsServiceProtocol: string := "_tcp"
  const TcpMdnsServiceType: string := "_pigg._tcp.local."

  /** The fixed host name the responder announces from. */
  const ResponderHostName: string := "host1"

  /** A record time-to-live, in seconds. */
  datatype Ttl = Ttl(seconds: u32)

  /** The host the responder announces: its name, addresses and record TTL. */
  datatype Host = Host(hostname: string, ipv4: Ipv4Addr, ipv6: Ipv6Addr, ttl: Ttl)

  /** A (key, value) TXT attribute. */
  type TxtPair = (string, string)

  /** The service the responder announces. */
  datatype Service = Service(
    name: string,
    priority: u16,
    weight: u16,
    service: string,
    protocol: string,
    port: u16,
    serviceSubtypes: seq<string>,
    txtKvs: seq<TxtPair>)

  /** The service-type constant is the service-name label, a dot, the protocol label and
      the `.local.` domain. */
  lemma ServiceTypeFromLabels()
    ensures TcpMdnsServiceType == TcpMdnsServiceName + "." + TcpMdnsServiceProtocol + ".local."
  {
  }

  /** The keys of a TXT attribute list, in order. */
  function TxtKeys(kvs: seq<TxtPair>): (keys: seq<string>)
    ensures |keys| == |kvs|
    ensures forall i :: 0 <= i < |kvs| ==> keys[i] == kvs[i].0
  {
    if kvs == [] then [] else [kvs[0].0] + TxtKeys(kvs[1..])
  }

  /** No key appears twice. */
  predicate DistinctKeys(kvs: seq<TxtPair>) {
    forall i, j :: 0 <= i < j < |kvs| ==> kvs[i].0 != kvs[j].0
  }

  /** The value of the first attribute named `key`, if any. */
  function TxtLookup(kvs: seq<TxtPair>, key: string): (v: Option<string>)
    ensures v.None? <==> key !in TxtKeys(kvs)
    ensures forall i ::
      (0 <= i < |kvs| && kvs[i].0 == key && forall j :: 0 <= j < i ==> kvs[j].0 != key)
      ==> v == Some(kvs[i].1)
  {
    if kvs == [] then None
    else if kvs[0].0 == key then Some(kvs[0].1)
    else
      assert forall i :: 1 <= i < |kvs| ==> kvs[1..][i - 1] == kvs[i];
      TxtLookup(kvs[1..], key)
  }

  /** With distinct keys, looking up each attribute's key yields that attribute's value. */
  lemma TxtLookupDistinct(kvs: seq<TxtPair>, i: nat)
    requires DistinctKeys(kvs)
    requires i < |kvs|
    ensures TxtLookup(kvs, kvs[i].0) == Some(kvs[i].1)
  {
  }

  /** The host record the responder is given: the fixed host name, the address the
      sequencer obtained, no IPv6 address, and a 60-second TTL. */
  function ResponderHost(ipv4: Ipv4Addr): (h: Host)
    ensures h.hostname == ResponderHostName
    ensures h.ipv4 == ipv4
    ensures IsUnspecified(h.ipv6)
    ensures h.ttl.seconds == 60
  {
    Host(ResponderHostName, ipv4, Ipv6Unspecified, Ttl(60))
  }

  /** The TXT keys every advertised service carries, in the order advertised. */
  const AdvertisedKeys: seq<string> := ["Serial", "Model", "AppName", "AppVersion"]

  /** The service record the responder is given. The instance name is the serial number;
      the SRV priority is 1 and the weight 5; there are no subtypes; and the TXT
      attributes are the serial number, the model, the application name and its version,
      in that order, under four distinct keys. */
  function ResponderService(serialNumber: string, model: string, service: string,
                            protocol: string, port: u16, appName: string, appVersion: string)
    : (s: Service)
    ensures s.name == serialNumber && s.priority == 1 && s.weight == 5
    ensures s.service == service && s.protocol == protocol && s.port == port
    ensures s.serviceSubtypes == []
    ensures s.txtKvs == [("Serial", serialNumber), ("Model", model),
                         ("AppName", appName), ("AppVersion", appVersion)]
    ensures TxtKeys(s.txtKvs) == AdvertisedKeys
    ensures DistinctKeys(s.txtKvs)
  {
    var kvs := [("Serial", serialNumber), ("Model", model),
                ("AppName", appName), ("AppVersion", appVersion)];
    assert TxtKeys(kvs) == AdvertisedKeys;
    Service(serialNumber, 1, 5, service, protocol, port, [], kvs)
  }

  /** Each TXT key of the service looks up its configured value, and the Serial attribute
      agrees with the instance name. */
  lemma ServiceTxtLookups(serialNumber: string, model: string, service: string,
                          protocol: string, port: u16, appName: string, appVersion: string)
    ensures var s := ResponderService(serialNumber, model, service, protocol, port,
                                      appName, appVersion);
      TxtLookup(s.txtKvs, "Serial") == Some(s.name) &&
      TxtLookup(s.txtKvs, "Model") == Some(model) &&
      TxtLookup(s.txtKvs, "AppName") == Some(appName) &&
      TxtLookup(s.txtKvs, "AppVersion") == Some(appVersion)
  {
  }

  /** A service built from the two service-type constants advertises the service type
      the constant names. */
  lemma ServiceAdvertisesPiggType(serialNumber: string, model: string, port: u16,
                                  appName: string, appVersion: string)
    ensures var s := ResponderService(serialNumber, model, TcpMdnsServiceName,
                                      TcpMdnsServiceProtocol, port, appName, appVersion);
      s.service + "." + s.protocol + ".local." == TcpMdnsServiceType
  {
    ServiceTypeFromLabels();
  }
}
