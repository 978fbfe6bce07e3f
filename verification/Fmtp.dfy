/**
 The H.264 parameters of an SDP fmtp line (sections 8.1 and 8.2.1 of RFC 6184): the two parsers, the option that
 uses them, and their inverse, a printer.
 */
module Fmtp {
  import opened Text
  import Base64
  import opened RtspHost

  const SPROP := "sprop-parameter-sets="
  const MODE := "packetization-mode="
  const H264_PAYLOAD_TYPE: nat := 102

  datatype FmtpError =
    | SpropNotFound
    | SetCount(count: nat)
    | BadSps
    | BadPps
    | ModeNotFound
    | BadMode
    | WrongPayloadType(payloadType: nat)

  datatype Result<+T> = Ok(value: T) | Err(error: FmtpError)

  datatype ParameterSets = ParameterSets(sps: seq<Base64.Byte>, pps: seq<Base64.Byte>)

  // ----- What the parsers compute -----

  /** The value of the first parameter that starts with `key`, or "". */
  function ParamValue(params: seq<string>, key: string): string {
    if params == [] then ""
    else if HasPrefix(params[0], key) then params[0][|key|..]
    else ParamValue(params[1..], key)
  }

  function SpsPps(line: string): Result<ParameterSets> {
    var value := ParamValue(Split(line, ';'), SPROP);
    if value == "" then Err(SpropNotFound)
    else
      var sets := Split(value, ',');
      if |sets| != 2 then Err(SetCount(|sets|))
      else
        var sps, pps := Base64.Decode(sets[0]), Base64.Decode(sets[1]);
        if sps.None? then Err(BadSps)
        else if pps.None? then Err(BadPps)
        else Ok(ParameterSets(sps.value, pps.value))
  }

  function PacketisationMode(line: string): Result<int> {
    var value := ParamValue(Split(line, ';'), MODE);
    if value == "" then Err(ModeNotFound)
    else
      var n := Atoi(value);
      if n.None? then Err(BadMode) else Ok(n.value)
  }

  // ----- Which lines are accepted -----

  lemma {:induction false} FirstWins(params: seq<string>, key: string, i: nat)
    requires i < |params| && HasPrefix(params[i], key)
    requires forall m | 0 <= m < i :: !HasPrefix(params[m], key)
    ensures ParamValue(params, key) == params[i][|key|..]
  {
    if i != 0 {
      FirstWins(params[1..], key, i - 1);
    }
  }

  lemma PrefixThenRest(key: string, value: string)
    ensures HasPrefix(key + value, key) && (key + value)[|key|..] == value
  {
  }

  /** Parameter `i` of the line, the first with this key, has this value. */
  predicate CarriedAt(line: string, params: seq<string>, i: nat, key: string, value: string) {
    && i < |params| && line == Join(params, ';') && (forall param | param in params :: ';' !in param)
    && params[i] == key + value && forall m | 0 <= m < i :: !HasPrefix(params[m], key)
  }

  /** The line, read as `;`-separated parameters, carries this value under its first parameter with the key. */
  ghost predicate Carries(line: string, key: string, value: string) {
    exists params, i :: CarriedAt(line, params, i, key, value)
  }

  lemma {:induction false} FirstWithKey(params: seq<string>, key: string) returns (i: nat)
    requires ParamValue(params, key) != ""
    ensures i < |params| && params[i] == key + ParamValue(params, key)
    ensures forall m | 0 <= m < i :: !HasPrefix(params[m], key)
  {
    if HasPrefix(params[0], key) {
      i := 0;
    } else {
      var j := FirstWithKey(params[1..], key);
      i := j + 1;
    }
  }

  lemma CarriesIff(line: string, key: string, value: string)
    requires value != ""
    ensures Carries(line, key, value) <==> ParamValue(Split(line, ';'), key) == value
  {
    if Carries(line, key, value) {
      var params, i :| CarriedAt(line, params, i, key, value);
      SplitJoin(params, ';');
      PrefixThenRest(key, value);
      FirstWins(params, key, i);
    }
    if ParamValue(Split(line, ';'), key) == value {
      JoinSplit(line, ';');
      var i := FirstWithKey(Split(line, ';'), key);
      assert CarriedAt(line, Split(line, ';'), i, key, value);
    }
  }

  /** The value of the sets' parameter: two comma-free texts that decode to them. */
  predicate Spells(a: string, b: string, sets: ParameterSets) {
    ',' !in a && ',' !in b && Base64.Decode(a) == Some(sets.sps) && Base64.Decode(b) == Some(sets.pps)
  }

  /** Exactly the lines that are accepted, and with which result. */
  lemma AcceptedSets(line: string, sets: ParameterSets)
    ensures SpsPps(line) == Ok(sets) <==>
      exists a, b :: Spells(a, b, sets) && Carries(line, "sprop-parameter-sets=", a + "," + b)
  {
    if SpsPps(line) == Ok(sets) {
      var value := ParamValue(Split(line, ';'), SPROP);
      var parts := Split(value, ',');
      JoinSplit(value, ',');
      assert parts == [parts[0], parts[1]];
      CarriesIff(line, SPROP, value);
      assert Spells(parts[0], parts[1], sets) && Carries(line, SPROP, parts[0] + "," + parts[1]);
    }
    if a, b :| Spells(a, b, sets) && Carries(line, SPROP, a + "," + b) {
      CarriesIff(line, SPROP, a + "," + b);
      SplitPair(a, ',', b);
    }
  }

  lemma AcceptedMode(line: string, mode: int)
    ensures PacketisationMode(line) == Ok(mode) <==>
      exists value :: Atoi(value) == Some(mode) && Carries(line, "packetization-mode=", value)
  {
    if PacketisationMode(line) == Ok(mode) {
      var value := ParamValue(Split(line, ';'), MODE);
      CarriesIff(line, MODE, value);
      assert Atoi(value) == Some(mode) && Carries(line, MODE, value);
    }
    if value :| Atoi(value) == Some(mode) && Carries(line, MODE, value) {
      CarriesIff(line, MODE, value);
    }
  }

  lemma CarriesOne(line: string, key: string, value: string, other: string)
    requires Carries(line, key, value) && Carries(line, key, other) && value != "" && other != ""
    ensures value == other
  {
    CarriesIff(line, key, value);
    CarriesIff(line, key, other);
  }

  /** No parameter has the key, or the first that has it has nothing after it. */
  ghost predicate HasNoValue(line: string, key: string) {
    forall value | value != "" :: !Carries(line, key, value)
  }

  lemma HasNoValueIff(line: string, key: string)
    ensures HasNoValue(line, key) <==> ParamValue(Split(line, ';'), key) == ""
  {
    var value := ParamValue(Split(line, ';'), key);
    if value != "" { CarriesIff(line, key, value); }
    forall other | other != "" && Carries(line, key, other) ensures value == other { CarriesIff(line, key, other); }
  }

  /** The parameter's value is these texts with commas between them. */
  ghost predicate ListsSets(line: string, sets: seq<string>) {
    && (forall part | part in sets :: ',' !in part) && sets != [] && Join(sets, ',') != ""
    && Carries(line, "sprop-parameter-sets=", Join(sets, ','))
  }

  lemma ListsSetsIff(line: string, sets: seq<string>)
    ensures ListsSets(line, sets) <==> ParamValue(Split(line, ';'), SPROP) != "" && Split(ParamValue(Split(line, ';'), SPROP), ',') == sets
  {
    var value := ParamValue(Split(line, ';'), SPROP);
    if ListsSets(line, sets) {
      CarriesIff(line, SPROP, Join(sets, ','));
      SplitJoin(sets, ',');
    }
    if value != "" && Split(value, ',') == sets {
      JoinSplit(value, ',');
      CarriesIff(line, SPROP, value);
    }
  }

  /** Exactly when the sets are refused, and with which error: none, the wrong number of them, an SPS or a PPS that is no base64. */
  lemma RefusedSets(line: string)
    ensures SpsPps(line) == Err(SpropNotFound) <==> HasNoValue(line, "sprop-parameter-sets=")
    ensures forall n :: SpsPps(line) == Err(SetCount(n)) <==> n != 2 && exists sets :: ListsSets(line, sets) && |sets| == n
    ensures SpsPps(line) == Err(BadSps) <==> exists a, b :: ListsSets(line, [a, b]) && Base64.Decode(a) == None
    ensures SpsPps(line) == Err(BadPps) <==>
      exists a, b :: ListsSets(line, [a, b]) && Base64.Decode(a) != None && Base64.Decode(b) == None
  {
    HasNoValueIff(line, SPROP);
    forall sets { ListsSetsIff(line, sets); }
    var value := ParamValue(Split(line, ';'), SPROP);
    var sets := Split(value, ',');
    if value != "" {
      assert ListsSets(line, sets);
      if |sets| == 2 { assert sets == [sets[0], sets[1]]; }
    }
  }

  lemma RefusedMode(line: string)
    ensures PacketisationMode(line) == Err(ModeNotFound) <==> HasNoValue(line, "packetization-mode=")
    ensures PacketisationMode(line) == Err(BadMode) <==>
      exists value :: value != "" && Carries(line, "packetization-mode=", value) && Atoi(value) == None
  {
    HasNoValueIff(line, MODE);
    var value := ParamValue(Split(line, ';'), MODE);
    if value != "" { CarriesIff(line, MODE, value); }
    forall other | other != "" && Carries(line, MODE, other) ensures other == value { CarriesIff(line, MODE, other); }
  }

  // ----- The parsers -----

  method FindParam(params: seq<string>, key: string) returns (value: string)
    ensures value == ParamValue(params, key)
  {
    value := "";
    for i := 0 to |params|
      invariant value == "" && ParamValue(params, key) == ParamValue(params[i..], key)
    {
      if HasPrefix(params[i], key) {
        value := params[i][|key|..];
        break;
      }
    }
  }

  method ParseSPSPPS(line: string) returns (r: Result<ParameterSets>)
    ensures r == SpsPps(line)
  {
    var spropParameterSets := FindParam(Split(line, ';'), SPROP);
    if spropParameterSets == "" {
      return Err(SpropNotFound);
    }
    var parameterSets := Split(spropParameterSets, ',');
    if |parameterSets| != 2 {
      return Err(SetCount(|parameterSets|));
    }
    var sps := Base64.Decode(parameterSets[0]);
    if sps.None? {
      return Err(BadSps);
    }
    var pps := Base64.Decode(parameterSets[1]);
    if pps.None? {
      return Err(BadPps);
    }
    return Ok(ParameterSets(sps.value, pps.value));
  }

  method ParsePacketisationMode(line: string) returns (r: Result<int>)
    ensures r == PacketisationMode(line)
  {
    var packetisationMode := FindParam(Split(line, ';'), MODE);
    if packetisationMode == "" {
      return Err(ModeNotFound);
    }
    var mode := Atoi(packetisationMode);
    if mode.None? {
      return Err(BadMode);
    }
    return Ok(mode.value);
  }

  /** The option's media: the mode passes through an unsigned byte. */
  function H264Media(mode: int, sets: ParameterSets): Media {
    Media([H264(H264_PAYLOAD_TYPE, mode % 256,
                seq(|sets.sps|, i requires 0 <= i < |sets.sps| => sets.sps[i] as nat),
                seq(|sets.pps|, i requires 0 <= i < |sets.pps| => sets.pps[i] as nat))])
  }

  function FirstError(line: string, payloadType: nat): Option<FmtpError> {
    var sets, mode := SpsPps(line), PacketisationMode(line);
    if sets.Err? then Some(sets.error)
    else if mode.Err? then Some(mode.error)
    else if payloadType != H264_PAYLOAD_TYPE then Some(WrongPayloadType(payloadType))
    else None
  }

  /** The sets' error comes first, then the mode's, then that of a payload type other than 102; otherwise there is none. */
  lemma ErrorsInOrder(line: string, payloadType: nat)
    ensures var sets, mode, error := SpsPps(line), PacketisationMode(line), FirstError(line, payloadType);
      && (error == None <==> sets.Ok? && mode.Ok? && payloadType == 102)
      && (sets.Err? ==> error == Some(sets.error))
      && (sets.Ok? && mode.Err? ==> error == Some(mode.error))
      && (sets.Ok? && mode.Ok? && payloadType != 102 ==> error == Some(WrongPayloadType(payloadType)))
  {
  }

  /** The one format of the new media: payload type 102, the mode's low eight bits, and the sets byte for byte. */
  lemma MediaIs(mode: int, sets: ParameterSets)
    ensures var media := H264Media(mode, sets);
      && |media.formats| == 1 && media.formats[0].payloadType == 102
      && 0 <= media.formats[0].packetizationMode < 256 && (media.formats[0].packetizationMode - mode) % 256 == 0
      && media.formats[0].sps == sets.sps && media.formats[0].pps == sets.pps
  {
  }

  /** Applies a remote track's H.264 options to the host: all of them, or none and the first error. */
  method WithH264OptionsFromRemote(host: NewHost, line: string, payloadType: nat) returns (error: Option<FmtpError>)
    modifies host`medias
    ensures error == FirstError(line, payloadType)
    ensures host.medias == if error.None? then old(host.medias) + [H264Media(PacketisationMode(line).value, SpsPps(line).value)]
                           else old(host.medias)
  {
    var sets := ParseSPSPPS(line);
    if sets.Err? {
      return Some(sets.error);
    }
    var mode := ParsePacketisationMode(line);
    if mode.Err? {
      return Some(mode.error);
    }
    if payloadType != H264_PAYLOAD_TYPE {
      return Some(WrongPayloadType(payloadType));
    }
    host.AppendRTSPMediaDescription(H264Media(mode.value, sets.value));
    return None;
  }

  // ----- The printer and the round trip -----

  function PrintSets(sets: ParameterSets): string {
    SPROP + Base64.Encode(sets.sps) + "," + Base64.Encode(sets.pps)
  }

  function PrintMode(mode: nat): string {
    MODE + Decimal(mode)
  }

  lemma EncodedHasNoSeparator(bs: seq<Base64.Byte>)
    ensures ',' !in Base64.Encode(bs) && ';' !in Base64.Encode(bs)
  {
    Base64.RoundTrip(bs);
    assert Base64.IsSeparator(',') && Base64.IsSeparator(';');
  }

  lemma SetsOfPrinted(sets: ParameterSets)
    ensures var printed := PrintSets(sets);
      && HasPrefix(printed, SPROP) && ';' !in printed
      && printed[|SPROP|..] == Base64.Encode(sets.sps) + "," + Base64.Encode(sets.pps)
  {
    EncodedHasNoSeparator(sets.sps);
    EncodedHasNoSeparator(sets.pps);
    PrefixThenRest(SPROP, Base64.Encode(sets.sps) + "," + Base64.Encode(sets.pps));
    assert PrintSets(sets) == SPROP + (Base64.Encode(sets.sps) + "," + Base64.Encode(sets.pps));
  }

  lemma ModeOfPrinted(mode: nat)
    ensures var printed := PrintMode(mode);
      HasPrefix(printed, MODE) && ';' !in printed && printed[|MODE|..] == Decimal(mode) && Decimal(mode) != ""
  {
    DecimalRoundTrip(mode);
    assert forall c | c in Decimal(mode) :: IsDigit(c);
  }

  /** The printed parameters stand at `i` and `j`, among `;`-free others of which none hides them by an earlier equal key. */
  predicate Printed(params: seq<string>, i: nat, j: nat, sets: ParameterSets, mode: nat) {
    && i < |params| && j < |params| && params[i] == PrintSets(sets) && params[j] == PrintMode(mode)
    && (forall m | 0 <= m < |params| && m != i && m != j :: ';' !in params[m])
    && (forall m | 0 <= m < i :: !HasPrefix(params[m], SPROP))
    && (forall m | 0 <= m < j :: !HasPrefix(params[m], MODE))
  }

  lemma PrintedIsCarried(params: seq<string>, i: nat, j: nat, sets: ParameterSets, mode: nat)
    requires Printed(params, i, j, sets, mode)
    ensures Carries(Join(params, ';'), SPROP, Base64.Encode(sets.sps) + "," + Base64.Encode(sets.pps))
    ensures Carries(Join(params, ';'), MODE, Decimal(mode))
  {
    SetsOfPrinted(sets);
    ModeOfPrinted(mode);
    assert params[i] == SPROP + (Base64.Encode(sets.sps) + "," + Base64.Encode(sets.pps));
    assert CarriedAt(Join(params, ';'), params, i, SPROP, Base64.Encode(sets.sps) + "," + Base64.Encode(sets.pps));
    assert CarriedAt(Join(params, ';'), params, j, MODE, Decimal(mode));
  }

  /**
   Wherever the two parameters stand in the line, in whatever order and among whatever `;`-free parameters, parsing
   returns exactly the byte strings and the mode that were printed.
   */
  lemma FmtpRoundTrip(params: seq<string>, i: nat, j: nat, sets: ParameterSets, mode: nat)
    requires Printed(params, i, j, sets, mode) && mode < 0x8000_0000_0000_0000
    ensures SpsPps(Join(params, ';')) == Ok(sets)
    ensures PacketisationMode(Join(params, ';')) == Ok(mode)
  {
    PrintedIsCarried(params, i, j, sets, mode);
    EncodedHasNoSeparator(sets.sps);
    EncodedHasNoSeparator(sets.pps);
    Base64.RoundTrip(sets.sps);
    Base64.RoundTrip(sets.pps);
    AtoiDecimal(mode);
    assert Spells(Base64.Encode(sets.sps), Base64.Encode(sets.pps), sets);
    AcceptedSets(Join(params, ';'), sets);
    AcceptedMode(Join(params, ';'), mode);
  }

  lemma MediaOf(mode: int, sets: ParameterSets)
    ensures var format := H264Media(mode, sets).formats[0];
      format.sps == sets.sps && format.pps == sets.pps && (0 <= mode < 256 ==> format.packetizationMode == mode)
  {
    assert |H264Media(mode, sets).formats[0].sps| == |sets.sps|;
  }

  /** With the conventional payload type, the host's new media carries the printed parameters for the modes 0 to 2. */
  lemma PrintedLineIsAccepted(params: seq<string>, i: nat, j: nat, sets: ParameterSets, mode: nat)
    requires Printed(params, i, j, sets, mode) && mode <= 2
    ensures FirstError(Join(params, ';'), H264_PAYLOAD_TYPE) == None
    ensures var media := H264Media(PacketisationMode(Join(params, ';')).value, SpsPps(Join(params, ';')).value);
      |media.formats| == 1 && media.formats[0].packetizationMode == mode
      && media.formats[0].sps == sets.sps && media.formats[0].pps == sets.pps
  {
    FmtpRoundTrip(params, i, j, sets, mode);
    MediaOf(mode, sets);
  }

  /** The mode reaches the format unchanged exactly when it fits a byte: otherwise it is cut to its low eight bits. */
  lemma ModeIsKeptIffByte(mode: int, sets: ParameterSets)
    ensures H264Media(mode, sets).formats[0].packetizationMode == mode <==> 0 <= mode < 256
  {
  }
}
