/** The subscription as a whole: what either registry prints in each format, and a reader for both. */
module Subscription {
  import opened Text
  import opened FormatNames
  import opened Nodes
  import opened Validators
  import opened Links
  import Base64
  import Clash
  import SR = Shadowrocket
  import opened SingBox
  import opened Formats

  // ----- the two answers -----

  datatype Body = TextBody(text: string) | TreeBody(outbounds: seq<Outbound>)

  function GoBody(format: Format, xs: seq<ByteProxy>): Body {
    match format
    case LinksFormat => TextBody(ListText(GoLinks(xs)))
    case Base64Format => TextBody(GoBase64(xs))
    case ClashFormat => TextBody(Clash.ClashText(xs))
    case ConfFormat => TextBody(SR.ConfText(Go, xs))
    case SingBoxFormat => TreeBody(Outbounds(xs))
  }

  function Texted(text: Option<string>): Option<Body> {
    match text case None => None case Some(t) => Some(TextBody(t))
  }

  /** None where the Worker's printer throws. */
  function WorkerBody(format: Format, xs: seq<ByteProxy>): Option<Body> {
    match format
    case LinksFormat => Texted(WorkerListText(xs))
    case Base64Format => Texted(WorkerBase64(xs))
    case ClashFormat => Some(TextBody(Clash.ClashText(xs)))
    case ConfFormat => Some(TextBody(SR.ConfText(Js, xs)))
    case SingBoxFormat => Some(TreeBody(Outbounds(xs)))
  }

  /** Go's renderSubscription; None for an unsupported format. */
  method GoRenderSubscription(format: string, nodes: seq<Node>) returns (body: Option<Body>)
    ensures GoFormat(format) == None ==> body == None
    ensures GoFormat(format).Some? ==> body == Some(GoBody(GoFormat(format).value, Proxies(nodes)))
  {
    GoFormatNames(format);
    hide ToLower, GoFormat, GoLinks, ListText, Clash.ClashText, SR.ConfText, Outbounds;
    var name := ToLower(Go, format);
    if name in ["", "shadowrocket", "links", "plain"] {
      var text := GoRenderLinks(nodes);
      body := Some(TextBody(text));
    } else if name == "base64" {
      var text := GoRenderLinks(nodes);
      GoListBytes(Proxies(nodes));
      body := Some(TextBody(Base64.Encode(Base64.Std, true, text)));
    } else if name in ["clash", "mihomo"] {
      var text := Clash.GoRenderClash(nodes);
      body := Some(TextBody(text));
    } else if name in ["shadowrocket-conf", "shadowrocket-config", "sr-conf", "srconfig"] {
      var text := SR.GoRenderShadowrocketConfig(nodes);
      body := Some(TextBody(text));
    } else if name in ["sing-box", "singbox"] {
      var outbounds := GoRenderSingBox(nodes);
      body := Some(TreeBody(outbounds));
    } else {
      body := None;
    }
  }

  /** The Worker's renderSubscription; None when it throws, for an unsupported format or in `btoa`. */
  method WorkerRenderSubscription(format: string, nodes: seq<Node>) returns (body: Option<Body>)
    ensures WorkerFormat(format) == None ==> body == None
    ensures WorkerFormat(format).Some? ==> body == WorkerBody(WorkerFormat(format).value, Proxies(nodes))
  {
    WorkerFormatNames(format);
    WorkerLowered(format);
    hide ToLower, WorkerFormat, WorkerLinks, ListText, Clash.ClashText, SR.ConfText, Outbounds;
    var normalized := ToLower(Js, if format != "" then format else "shadowrocket");
    if normalized in ["shadowrocket", "links", "plain"] {
      var text := WorkerRenderLinks(nodes);
      return Texted(text);
    }
    if normalized == "base64" {
      var text := WorkerRenderLinks(nodes);
      if text == None { return None; }
      return Texted(Base64.Btoa(text.value));
    }
    if normalized in ["clash", "mihomo"] {
      var text := Clash.WorkerRenderClash(nodes);
      return Some(TextBody(text));
    }
    if normalized in ["shadowrocket-conf", "shadowrocket-config", "sr-conf", "srconfig"] {
      var text := SR.WorkerRenderShadowrocketConfig(nodes);
      return Some(TextBody(text));
    }
    if normalized in ["sing-box", "singbox"] {
      var outbounds := WorkerRenderSingBox(nodes);
      return Some(TreeBody(outbounds));
    }
    return None;
  }

  // ----- one reader for both -----

  datatype Reading =
    | Records(proxies: seq<Proxy>)
    | Document(doc: Clash.ClashDoc)
    | Configuration(conf: SR.Conf)
    | Tree(outbounds: seq<Outbound>)
    | Unreadable

  function ReadLinks(text: string): Reading {
    match ParseLinks(text) case None => Unreadable case Some(proxies) => Records(proxies)
  }

  function ReadBase64(text: string): Reading {
    match ParseBase64(text) case None => Unreadable case Some(proxies) => Records(proxies)
  }

  function ReadClash(text: string): Reading {
    match Clash.ParseClash(text) case None => Unreadable case Some(doc) => Document(doc)
  }

  function ReadConf(text: string): Reading {
    match SR.ParseConf(text) case None => Unreadable case Some(conf) => Configuration(conf)
  }

  function ReadText(format: Format, text: string): Reading {
    match format
    case LinksFormat => ReadLinks(text)
    case Base64Format => ReadBase64(text)
    case ClashFormat => ReadClash(text)
    case ConfFormat => ReadConf(text)
    case SingBoxFormat => Unreadable
  }

  function ReadBody(format: Format, body: Body): Reading {
    match body
    case TextBody(text) => ReadText(format, text)
    case TreeBody(outbounds) => if format.SingBoxFormat? then Tree(outbounds) else Unreadable
  }

  /** Both registries answer, and the answers read the same. */
  predicate ReadAlike(format: Format, xs: seq<ByteProxy>) {
    WorkerBody(format, xs).Some? &&
      ReadBody(format, WorkerBody(format, xs).value) == ReadBody(format, GoBody(format, xs))
  }

  // ----- when the Worker answers, and when the answers read the same -----

  predicate AllEncodable(xs: seq<ByteProxy>) {
    forall i :: 0 <= i < |xs| ==> Encodable(xs[i])
  }

  /** The Worker prints links and base64 unless a shadowsocks secret has a character above U+00FF; the rest always. */
  predicate WorkerPrints(format: Format, xs: seq<ByteProxy>) {
    format.LinksFormat? || format.Base64Format? ==> AllEncodable(xs)
  }

  /** What the two printers have in common: ASCII secrets in links; in the configuration names that both trim alike;
      everything in Clash and sing-box. */
  predicate Alike(format: Format, xs: seq<Proxy>) {
    match format
    case LinksFormat => AsciiSecrets(xs)
    case Base64Format => AsciiSecrets(xs)
    case ClashFormat => true
    case ConfFormat => SR.AllAlike(xs)
    case SingBoxFormat => true
  }

  lemma LinksRead(xs: seq<ByteProxy>)
    requires LinkHosts(xs)
    ensures ReadLinks(ListText(GoLinks(xs))) == Records(AllRecovered(xs))
  {
    LinkListRoundTrip(xs);
  }

  lemma SameRecords(a: string, b: string)
    ensures ReadLinks(a) == ReadLinks(b) <==> ParseLinks(a) == ParseLinks(b)
  {
  }

  lemma LinksAlike(xs: seq<ByteProxy>)
    requires LinkHosts(xs)
    ensures WorkerListText(xs).Some? <==> AllEncodable(xs)
    ensures (WorkerListText(xs).Some? && ReadLinks(WorkerListText(xs).value) == ReadLinks(ListText(GoLinks(xs)))) <==>
            AsciiSecrets(xs)
  {
    LinkListsAgree(xs);
    if WorkerLinks(xs).Some? { SameRecords(ListText(WorkerLinks(xs).value), ListText(GoLinks(xs))); }
  }

  lemma Base64Read(xs: seq<ByteProxy>)
    requires LinkHosts(xs)
    ensures ReadBase64(GoBase64(xs)) == ReadLinks(ListText(GoLinks(xs)))
    ensures WorkerBase64(xs).Some? <==> WorkerListText(xs).Some?
    ensures WorkerBase64(xs).Some? ==> ReadBase64(WorkerBase64(xs).value) == ReadLinks(WorkerListText(xs).value)
  {
    GoBase64Read(xs);
    WorkerBase64Read(xs);
  }

  lemma ClashRead(xs: seq<Proxy>)
    ensures ReadClash(Clash.ClashText(xs)) ==
            if Clash.AllClashQuotable(xs) then Document(Clash.ClashDoc(Clash.ClashAll(xs), Clash.Names(xs)))
            else Unreadable
  {
    Clash.ClashRoundTrip(xs);
  }

  lemma ConfRead(side: Side, xs: seq<Proxy>)
    ensures ReadConf(SR.ConfText(side, xs)) ==
            Configuration(SR.Conf(SR.Entries(side, xs), SR.EntryNames(SR.Entries(side, xs))))
  {
    SR.ConfRoundTrip(side, xs);
  }

  lemma ConfAlike(xs: seq<Proxy>)
    requires AllSuffixed(xs)
    ensures ReadConf(SR.ConfText(Js, xs)) == ReadConf(SR.ConfText(Go, xs)) <==> SR.AllAlike(xs)
    ensures SR.ConfText(Js, xs) == SR.ConfText(Go, xs) <==> SR.AllAlike(xs)
  {
    hide *;
    ConfRead(Go, xs);
    ConfRead(Js, xs);
    SR.EntriesAgree(xs);
    SR.ConfAgree(xs);
  }

  predicate SameBytes(format: Format, xs: seq<ByteProxy>) {
    WorkerBody(format, xs) == Some(GoBody(format, xs))
  }

  lemma LinksFormatAgree(xs: seq<ByteProxy>)
    requires LinkHosts(xs)
    ensures WorkerBody(LinksFormat, xs).Some? <==> WorkerPrints(LinksFormat, xs)
    ensures ReadAlike(LinksFormat, xs) <==> Alike(LinksFormat, xs)
  {
    hide ReadLinks, ReadBase64, ReadClash, ReadConf, WorkerListText, GoLinks, ListText, AllEncodable, AsciiSecrets;
    LinksAlike(xs);
  }

  lemma Base64FormatAgree(xs: seq<ByteProxy>)
    requires LinkHosts(xs)
    ensures WorkerBody(Base64Format, xs).Some? <==> WorkerPrints(Base64Format, xs)
    ensures ReadAlike(Base64Format, xs) <==> Alike(Base64Format, xs)
  {
    hide ReadLinks, ReadBase64, ReadClash, ReadConf, WorkerListText, WorkerBase64, GoBase64, GoLinks, ListText;
    hide AllEncodable, AsciiSecrets;
    LinksAlike(xs);
    Base64Read(xs);
  }

  lemma ClashFormatAgree(xs: seq<ByteProxy>)
    ensures WorkerBody(ClashFormat, xs).Some? && ReadAlike(ClashFormat, xs) && SameBytes(ClashFormat, xs)
  {
    hide Clash.ParseClash, Clash.ClashText;
  }

  lemma ConfFormatAgree(xs: seq<ByteProxy>)
    requires AllSuffixed(xs)
    ensures WorkerBody(ConfFormat, xs).Some?
    ensures ReadAlike(ConfFormat, xs) <==> Alike(ConfFormat, xs)
    ensures Alike(ConfFormat, xs) ==> SameBytes(ConfFormat, xs)
  {
    hide SR.ParseConf, SR.ConfText;
    ConfAlike(xs);
  }

  lemma SingBoxFormatAgree(xs: seq<ByteProxy>)
    ensures WorkerBody(SingBoxFormat, xs).Some? && ReadAlike(SingBoxFormat, xs) && SameBytes(SingBoxFormat, xs)
  {
  }

  /** The Worker answers exactly for what it can print; and its answer reads like Go's exactly for what the two
      printers have in common. Clash, configuration and sing-box are then the same to the byte; links differ in query
      order and in how a space is escaped. */
  lemma SubscriptionsAgree(format: Format, xs: seq<ByteProxy>)
    requires LinkHosts(xs) && AllSuffixed(xs)
    ensures WorkerBody(format, xs).Some? <==> WorkerPrints(format, xs)
    ensures ReadAlike(format, xs) <==> Alike(format, xs)
    ensures Alike(format, xs) && !format.LinksFormat? && !format.Base64Format? ==> SameBytes(format, xs)
  {
    hide WorkerBody, GoBody, ReadAlike, SameBytes, AllEncodable, AsciiSecrets, SR.AllAlike;
    match format
    case LinksFormat => LinksFormatAgree(xs);
    case Base64Format => Base64FormatAgree(xs);
    case ClashFormat => ClashFormatAgree(xs);
    case ConfFormat => ConfFormatAgree(xs);
    case SingBoxFormat => SingBoxFormatAgree(xs);
  }

  // ----- the endpoints every format describes -----

  function EndpointsIn(reading: Reading): Option<seq<Endpoint>> {
    match reading
    case Records(proxies) => Some(Endpoints(proxies))
    case Document(doc) => Some(ClashEndpoints(doc.proxies))
    case Configuration(conf) => Some(ConfEndpoints(conf.entries))
    case Tree(outbounds) => Some(OutboundEndpoints(outbounds))
    case Unreadable => None
  }

  predicate AllColonFree(xs: seq<Proxy>) { forall i :: 0 <= i < |xs| ==> ColonFree(xs[i]) }

  predicate AllRestorable(xs: seq<Proxy>) { forall i :: 0 <= i < |xs| ==> ConfRestorable(xs[i]) }

  /** What a format needs of the values it prints: no colon in a cipher name for links, no control character for Clash,
      no line break and no literal `%2C` for the configuration. */
  predicate Faithful(format: Format, xs: seq<Proxy>) {
    match format
    case LinksFormat => AllColonFree(xs)
    case Base64Format => AllColonFree(xs)
    case ClashFormat => Clash.AllClashQuotable(xs)
    case ConfFormat => AllRestorable(xs)
    case SingBoxFormat => true
  }

  lemma LinksFaithful(xs: seq<ByteProxy>)
    requires LinkHosts(xs)
    ensures EndpointsIn(ReadLinks(ListText(GoLinks(xs)))) == Some(Endpoints(xs)) <==> AllColonFree(xs)
  {
    LinksRead(xs);
    LinksSaySame(xs);
  }

  lemma ClashFaithful(xs: seq<Proxy>)
    ensures EndpointsIn(ReadClash(Clash.ClashText(xs))) == Some(Endpoints(xs)) <==> Clash.AllClashQuotable(xs)
  {
    hide Clash.ParseClash, Clash.ClashText, Clash.AllClashQuotable, Endpoints, ClashEndpoints;
    var text := Clash.ClashText(xs);
    ClashRead(xs);
    ClashSaysSame(xs);
    if Clash.AllClashQuotable(xs) {
      assert EndpointsIn(ReadClash(text)) == Some(ClashEndpoints(Clash.ClashAll(xs)));
    }
  }

  lemma ConfFaithful(xs: seq<Proxy>)
    ensures EndpointsIn(ReadConf(SR.ConfText(Go, xs))) == Some(Endpoints(xs)) <==> AllRestorable(xs)
  {
    ConfRead(Go, xs);
    ConfSaysSame(Go, xs);
  }

  lemma FormatFaithful(format: Format, xs: seq<ByteProxy>)
    requires LinkHosts(xs)
    ensures EndpointsIn(ReadBody(format, GoBody(format, xs))) == Some(Endpoints(xs)) <==> Faithful(format, xs)
  {
    hide ReadLinks, ReadBase64, ReadClash, ReadConf, Clash.ClashText, SR.ConfText, GoLinks, ListText, GoBase64,
         Endpoints;
    match format
    case LinksFormat => LinksFaithful(xs);
    case Base64Format => Base64Read(xs); LinksFaithful(xs);
    case ClashFormat => ClashFaithful(xs);
    case ConfFormat => ConfFaithful(xs);
    case SingBoxFormat => OutboundsSaySame(xs);
  }

  /** For every valid node list and every format: Go's subscription, read back, gives the endpoints of the list -
      type, host, port, password, cipher and effective server name, one per protocol entry, in order - exactly when
      the values meet the needs of the format. So any two formats describe the same endpoints. */
  lemma FormatsAgree(format: Format, nodes: seq<Node>)
    requires ValidNodes(nodes)
    ensures |Endpoints(Proxies(nodes))| == ProtocolCount(nodes)
    ensures EndpointsIn(ReadBody(format, GoBody(format, Proxies(nodes)))) == Some(Endpoints(Proxies(nodes)))
            <==> Faithful(format, Proxies(nodes))
  {
    hide *;
    OneProxyEach(nodes);
    ValidHosts(nodes);
    FormatFaithful(format, Proxies(nodes));
  }
}
