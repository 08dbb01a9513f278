/**
 * The WiFi scan and connected-network parsers of the backend: the text the two OS commands
 * print is cut into blocks, labelled fields are matched in each, missing fields get their
 * defaults, and each network is flagged when it is the one the interface is connected to.
 * The command runs themselves are inputs: a command either printed some text or failed.
 */
module Wifi {
  import opened Wrappers
  import opened Text
  import opened LabelPattern
  import Blocks

  datatype WifiNetwork = WifiNetwork(
    ssid: string,
    signal: nat,
    networkType: string,
    authentication: string,
    encryption: string,
    connected: bool)

  datatype ConnectedWifiInfo = ConnectedWifiInfo(
    ssid: string,
    signal: nat,
    channel: nat,
    radioType: string,
    authentication: string,
    encryption: string)

  /** What running one OS command gave: its standard output, or a failure of any kind. */
  datatype ExecResult = Stdout(text: string) | ExecFailed

  const SsidPattern := Pattern("SSID", true, Line)                  // /SSID\s+\d+\s+:\s+(.+)/
  const SignalPattern := Pattern("Signal", false, DigitsPercent)     // /Signal\s+:\s+(\d+)%/
  const NetworkTypePattern := Pattern("Network type", false, Line)   // /Network type\s+:\s+(.+)/
  const AuthenticationPattern := Pattern("Authentication", false, Line)
  const EncryptionPattern := Pattern("Encryption", false, Line)
  const ChannelPattern := Pattern("Channel", false, Digits)          // /Channel\s+:\s+(\d+)/
  const RadioTypePattern := Pattern("Radio type", false, Line)

  /** The column heading that a block may show in place of a network name. */
  const HeaderSsid := "SSID"
  const Unknown := "Unknown"
  const NetworksFailure := "Failed to get WiFi networks"
  const ConnectedFailure := "Failed to get connected WiFi information"

  /** A text field: its trimmed capture, or "Unknown" when the label is absent. */
  function TextField(text: string, p: Pattern): (r: string)
    ensures Capture(text, p).None? ==> r == Unknown
    ensures Capture(text, p).Some? ==> r == Trim(Capture(text, p).value)
  {
    match Capture(text, p)
    case None => Unknown
    case Some(v) => Trim(v)
  }

  /** A numeric field: `parseInt` of its digits, or 0 when the label is absent. */
  function NumberField(text: string, p: Pattern): (r: nat)
    requires p.capture != Line
    ensures Capture(text, p).None? ==> r == 0
    ensures Capture(text, p).Some? ==> r == DecimalValue(Capture(text, p).value)
  {
    match Capture(text, p)
    case None => 0
    case Some(v) => DecimalValue(v)
  }

  /** The SSID of the interfaces output, or None (`null`) when its pattern does not match. */
  function ConnectedSsid(interfacesOutput: string): (r: Option<string>)
    ensures r.None? <==> forall m :: !IsMatch(interfacesOutput, SsidPattern, m)
    ensures r.Some? ==> r.value == Trim(Capture(interfacesOutput, SsidPattern).value)
  {
    match Capture(interfacesOutput, SsidPattern)
    case None => None
    case Some(v) => Some(Trim(v))
  }

  /** The record one block yields, if it names a network. */
  function ParseNetwork(block: string, connectedSsid: Option<string>): (r: Option<WifiNetwork>)
    ensures r.Some? ==> r.value.ssid != "" && r.value.ssid != HeaderSsid
  {
    match Capture(block, SsidPattern)
    case None => None
    case Some(v) =>
      var ssid := Trim(v);
      if ssid == "" || ssid == HeaderSsid then None
      else
        Some(WifiNetwork(
          ssid,
          NumberField(block, SignalPattern),
          TextField(block, NetworkTypePattern),
          TextField(block, AuthenticationPattern),
          TextField(block, EncryptionPattern),
          connectedSsid == Some(ssid)))
  }

  /** A block gives a record exactly when its SSID pattern matches and the trimmed name is neither
      empty nor the column heading; each field is its trimmed capture or its default, and the record
      is flagged connected exactly when its name is the connected SSID. */
  lemma ParseNetworkSpec(block: string, connectedSsid: Option<string>)
    ensures ParseNetwork(block, connectedSsid).Some? <==>
              Capture(block, SsidPattern).Some? &&
              Trim(Capture(block, SsidPattern).value) != "" &&
              Trim(Capture(block, SsidPattern).value) != HeaderSsid
    ensures ParseNetwork(block, connectedSsid).Some? ==> ParseNetwork(block, connectedSsid).value.ssid == Trim(Capture(block, SsidPattern).value)
    ensures ParseNetwork(block, connectedSsid).Some? ==> ParseNetwork(block, connectedSsid).value.signal == NumberField(block, SignalPattern)
    ensures ParseNetwork(block, connectedSsid).Some? ==> ParseNetwork(block, connectedSsid).value.networkType == TextField(block, NetworkTypePattern)
    ensures ParseNetwork(block, connectedSsid).Some? ==> ParseNetwork(block, connectedSsid).value.authentication == TextField(block, AuthenticationPattern)
    ensures ParseNetwork(block, connectedSsid).Some? ==> ParseNetwork(block, connectedSsid).value.encryption == TextField(block, EncryptionPattern)
    ensures ParseNetwork(block, connectedSsid).Some? ==> (ParseNetwork(block, connectedSsid).value.connected <==> connectedSsid == Some(ParseNetwork(block, connectedSsid).value.ssid))
  {
  }

  /** The values present in rs, in order. */
  function Kept<T>(rs: seq<Option<T>>): seq<T> {
    if rs == [] then []
    else Kept(rs[..|rs| - 1]) + (if rs[|rs| - 1].Some? then [rs[|rs| - 1].value] else [])
  }

  /** The positions of rs that hold a value, in order. */
  function KeptIndices<T>(rs: seq<Option<T>>): seq<nat> {
    if rs == [] then []
    else KeptIndices(rs[..|rs| - 1]) + (if rs[|rs| - 1].Some? then [|rs| - 1] else [])
  }

  /** What ParseNetwork makes of each block. */
  function Parses(blocks: seq<string>, connectedSsid: Option<string>): (rs: seq<Option<WifiNetwork>>)
    ensures |rs| == |blocks|
    ensures forall i :: 0 <= i < |blocks| ==> rs[i] == ParseNetwork(blocks[i], connectedSsid)
  {
    seq(|blocks|, i requires 0 <= i < |blocks| => ParseNetwork(blocks[i], connectedSsid))
  }

  /** The records of the blocks that name a network, in block order. */
  function ParsedNetworks(blocks: seq<string>, connectedSsid: Option<string>): seq<WifiNetwork> {
    Kept(Parses(blocks, connectedSsid))
  }

  /** Indices of the blocks that yield a record, in order. */
  function SourceBlocks(blocks: seq<string>, connectedSsid: Option<string>): seq<nat> {
    KeptIndices(Parses(blocks, connectedSsid))
  }

  /** The `for (const block of networkBlocks)` loop that pushes one record per kept block. */
  method CollectNetworks(blocks: seq<string>, connectedSsid: Option<string>) returns (networks: seq<WifiNetwork>)
    ensures networks == ParsedNetworks(blocks, connectedSsid)
  {
    ghost var rs := Parses(blocks, connectedSsid);
    networks := [];
    for i := 0 to |blocks|
      invariant networks == Kept(rs[..i])
    {
      assert rs[..i + 1][..i] == rs[..i];
      var r := ParseNetwork(blocks[i], connectedSsid);
      assert r == rs[i];
      if r.Some? {
        networks := networks + [r.value];
      }
    }
    assert rs[..|blocks|] == rs;
  }

  /** `getWifiNetworks`: either command failing gives the one fixed error and no list. */
  method GetWifiNetworks(networksRun: ExecResult, interfacesRun: ExecResult) returns (r: Result<seq<WifiNetwork>, string>)
    ensures networksRun.ExecFailed? || interfacesRun.ExecFailed? <==> r.Err?
    ensures r.Err? ==> r.error == NetworksFailure
    ensures r.Ok? ==> r.value == ParsedNetworks(Blocks.Split(networksRun.text), ConnectedSsid(interfacesRun.text))
  {
    if networksRun.ExecFailed? || interfacesRun.ExecFailed? {
      return Err(NetworksFailure);
    }
    var connectedSsid := ConnectedSsid(interfacesRun.text);
    var blocks := Blocks.Split(networksRun.text);
    var networks := CollectNetworks(blocks, connectedSsid);
    r := Ok(networks);
  }

  /** One index per kept value, each holding that value, in increasing order. */
  lemma {:induction false} KeptOrigin<T>(rs: seq<Option<T>>)
    ensures var kept, src := Kept(rs), KeptIndices(rs);
            |src| == |kept| &&
            (forall k :: 0 <= k < |src| ==> src[k] < |rs| && rs[src[k]] == Some(kept[k])) &&
            (forall k1, k2 :: 0 <= k1 < k2 < |src| ==> src[k1] < src[k2])
  {
    if rs != [] {
      var last := |rs| - 1;
      var init := rs[..last];
      KeptOrigin(init);
      var kept0, src0 := Kept(init), KeptIndices(init);
      var kept, src := Kept(rs), KeptIndices(rs);
      assert kept == kept0 + (if rs[last].Some? then [rs[last].value] else []);
      assert src == src0 + (if rs[last].Some? then [last] else []);
      forall k | 0 <= k < |src|
        ensures src[k] < |rs| && rs[src[k]] == Some(kept[k])
      {
        if k < |src0| {
          assert src[k] == src0[k] && kept[k] == kept0[k];
          assert rs[src0[k]] == init[src0[k]];
        }
      }
      forall k1, k2 | 0 <= k1 < k2 < |src| ensures src[k1] < src[k2] {
        if k2 < |src0| {
          assert src[k1] == src0[k1] && src[k2] == src0[k2];
        }
      }
    }
  }

  /** Every position holding a value is kept. */
  lemma {:induction false} KeptComplete<T>(rs: seq<Option<T>>)
    ensures forall i :: 0 <= i < |rs| && rs[i].Some? ==> i in KeptIndices(rs)
  {
    if rs != [] {
      var init := rs[..|rs| - 1];
      KeptComplete(init);
      forall i | 0 <= i < |rs| && rs[i].Some? ensures i in KeptIndices(rs) {
        if i < |rs| - 1 {
          assert rs[i] == init[i];
        }
      }
    }
  }

  /** Nothing is kept twice. */
  lemma {:induction false} KeptBound<T>(rs: seq<Option<T>>)
    ensures |Kept(rs)| <= |rs|
  {
    if rs != [] {
      KeptBound(rs[..|rs| - 1]);
    }
  }

  /** Each record comes from its own block, and the blocks they come from are in increasing
      order: records appear in the order of their blocks. */
  lemma ParsedNetworksOrigin(blocks: seq<string>, connectedSsid: Option<string>)
    ensures var nets, src := ParsedNetworks(blocks, connectedSsid), SourceBlocks(blocks, connectedSsid);
            |src| == |nets| &&
            (forall k :: 0 <= k < |src| ==> src[k] < |blocks| && ParseNetwork(blocks[src[k]], connectedSsid) == Some(nets[k])) &&
            (forall k1, k2 :: 0 <= k1 < k2 < |src| ==> src[k1] < src[k2])
  {
    KeptOrigin(Parses(blocks, connectedSsid));
  }

  /** Every block that names a network gives a record. */
  lemma ParsedNetworksComplete(blocks: seq<string>, connectedSsid: Option<string>)
    ensures forall i :: 0 <= i < |blocks| && ParseNetwork(blocks[i], connectedSsid).Some? ==>
              i in SourceBlocks(blocks, connectedSsid)
  {
    KeptComplete(Parses(blocks, connectedSsid));
  }

  /** A scan yields at most one record per block. */
  lemma ParsedNetworksBound(blocks: seq<string>, connectedSsid: Option<string>)
    ensures |ParsedNetworks(blocks, connectedSsid)| <= |blocks|
  {
    KeptBound(Parses(blocks, connectedSsid));
  }

  /** What every record of a scan satisfies: a real, trimmed name; trimmed text fields; and
      `connected` exactly when its name is the connected SSID (never, when there is none). */
  lemma ParsedNetworksRecords(blocks: seq<string>, connectedSsid: Option<string>)
    ensures forall w :: w in ParsedNetworks(blocks, connectedSsid) ==>
              w.ssid != "" && w.ssid != HeaderSsid && Trim(w.ssid) == w.ssid &&
              Trim(w.networkType) == w.networkType &&
              Trim(w.authentication) == w.authentication &&
              Trim(w.encryption) == w.encryption &&
              (w.connected <==> connectedSsid == Some(w.ssid)) &&
              (connectedSsid.None? ==> !w.connected)
  {
    var nets := ParsedNetworks(blocks, connectedSsid);
    ParsedNetworksOrigin(blocks, connectedSsid);
    var src := SourceBlocks(blocks, connectedSsid);
    forall w | w in nets
      ensures w.ssid != "" && w.ssid != HeaderSsid && Trim(w.ssid) == w.ssid
      ensures Trim(w.networkType) == w.networkType && Trim(w.authentication) == w.authentication
      ensures Trim(w.encryption) == w.encryption
      ensures (w.connected <==> connectedSsid == Some(w.ssid))
    {
      var k :| 0 <= k < |nets| && nets[k] == w;
      var block := blocks[src[k]];
      ParseNetworkSpec(block, connectedSsid);
      TrimIdempotent(Capture(block, SsidPattern).value);
      TextFieldTrimmed(block, NetworkTypePattern);
      TextFieldTrimmed(block, AuthenticationPattern);
      TextFieldTrimmed(block, EncryptionPattern);
    }
  }

  lemma TextFieldTrimmed(text: string, p: Pattern)
    ensures Trim(TextField(text, p)) == TextField(text, p)
  {
    if Capture(text, p).Some? {
      TrimIdempotent(Capture(text, p).value);
    } else {
      TrimOfTrimmed(Unknown);
    }
  }

  /** When the scanned names are pairwise distinct, at most one record is flagged connected. */
  lemma AtMostOneConnected(blocks: seq<string>, connectedSsid: Option<string>)
    requires var nets := ParsedNetworks(blocks, connectedSsid);
             forall k1, k2 :: 0 <= k1 < k2 < |nets| ==> nets[k1].ssid != nets[k2].ssid
    ensures var nets := ParsedNetworks(blocks, connectedSsid);
            forall k1, k2 :: 0 <= k1 < k2 < |nets| ==> !(nets[k1].connected && nets[k2].connected)
  {
    ParsedNetworksRecords(blocks, connectedSsid);
    var nets := ParsedNetworks(blocks, connectedSsid);
    assert forall k :: 0 <= k < |nets| ==> nets[k] in nets;
  }

  /** `\s` also matches line breaks, so in a block whose SSID line carries no name the pattern
      runs on into the next line and takes that whole line as the name: the block is not dropped
      (for "SSID 2 : \r\nNetwork type : Infrastructure" the name is "Network type : Infrastructure"). */
  lemma EmptySsidLineTakesNextLine(line: string)
    requires line != [] && !IsSpace(line[0]) && Trim(line) != HeaderSsid
    requires forall j :: 0 <= j < |line| ==> !IsLineTerminator(line[j])
    ensures ParseNetwork("SSID 2 : \r\n" + line, None).Some?
    ensures ParseNetwork("SSID 2 : \r\n" + line, None).value.ssid == Trim(line)
  {
    SsidAfterEmptyLine(line);
    ParseNetworkSpec("SSID 2 : \r\n" + line, None);
  }

  lemma SsidAfterEmptyLine(line: string)
    requires line != [] && !IsSpace(line[0])
    requires forall j :: 0 <= j < |line| ==> !IsLineTerminator(line[j])
    ensures Capture("SSID 2 : \r\n" + line, SsidPattern) == Some(line)
  {
    var block := "SSID 2 : \r\n" + line;
    var m := Span(0, 7, 11, |block|);
    assert IsMatch(block, SsidPattern, m) && block[11] == line[0] by {
      SsidSpanAfterEmptyLine(line);
    }
    assert Find(block, SsidPattern) == Some(m) by {
      FindAtStart(block, SsidPattern, m);
    }
    assert block[11..|block|] == line;
  }

  /** The SSID pattern's match in such a block: label at 0, colon at 7, name from 11 to the end. */
  lemma SsidSpanAfterEmptyLine(line: string)
    requires forall j :: 0 <= j < |line| ==> !IsLineTerminator(line[j])
    requires line != []
    ensures var block := "SSID 2 : \r\n" + line;
            IsMatch(block, SsidPattern, Span(0, 7, 11, |block|)) && block[11] == line[0]
  {
    var head := "SSID 2 : \r\n";
    var block := head + line;
    assert |head| == 11;
    assert block[..11] == head;
    assert block[0..4] == "SSID";
    assert LabelAt(block, 0, "SSID");
    assert AllIn(block, 4, 5, Space) && AllIn(block, 5, 6, Digit) && AllIn(block, 6, 7, Space);
    assert GapMatches(block, 4, 7, true);
    assert AllIn(block, 8, 11, Space) by {
      assert IsSpace(block[8]) && IsSpace(block[9]) && IsSpace(block[10]);
    }
    assert AllIn(block, 11, |block|, Dot) by {
      forall j | 11 <= j < |block| ensures !IsLineTerminator(block[j]) {
        assert block[j] == line[j - 11];
      }
    }
  }

  /** The record `getConnectedWifiInfo` builds from the interfaces output, or None (`null`). */
  function ParseConnectedInfo(stdout: string): (r: Option<ConnectedWifiInfo>)
    ensures r.None? <==> forall m :: !IsMatch(stdout, SsidPattern, m)
    ensures r.Some? ==> r.value.ssid == Trim(Capture(stdout, SsidPattern).value)
    ensures r.Some? ==> r.value.signal == NumberField(stdout, SignalPattern)
    ensures r.Some? ==> r.value.channel == NumberField(stdout, ChannelPattern)
    ensures r.Some? ==> r.value.radioType == TextField(stdout, RadioTypePattern)
    ensures r.Some? ==> r.value.authentication == TextField(stdout, AuthenticationPattern)
    ensures r.Some? ==> r.value.encryption == TextField(stdout, EncryptionPattern)
  {
    match Capture(stdout, SsidPattern)
    case None => None
    case Some(v) =>
      Some(ConnectedWifiInfo(
        Trim(v),
        NumberField(stdout, SignalPattern),
        NumberField(stdout, ChannelPattern),
        TextField(stdout, RadioTypePattern),
        TextField(stdout, AuthenticationPattern),
        TextField(stdout, EncryptionPattern)))
  }

  /** `getConnectedWifiInfo`: a failed command is an error, which is not the same as `null`. */
  function GetConnectedWifiInfo(interfacesRun: ExecResult): (r: Result<Option<ConnectedWifiInfo>, string>)
    ensures r.Err? <==> interfacesRun.ExecFailed?
    ensures r.Err? ==> r.error == ConnectedFailure
    ensures r.Ok? ==> r.value == ParseConnectedInfo(interfacesRun.text)
  {
    match interfacesRun
    case ExecFailed => Err(ConnectedFailure)
    case Stdout(text) => Ok(ParseConnectedInfo(text))
  }
}
