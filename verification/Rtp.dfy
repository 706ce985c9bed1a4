/** RTP capabilities and parameters, before and after validation.

A JSON document is modelled field by field: a member is absent, present with a value of the wrong
JSON type, or given. Array entries may fail to be objects. Validation turns the raw form into the
plain one; Raw turns it back into the JSON the validator has left in place.
*/
module Rtp {

  import opened Common

  datatype Field<+T> = Absent | Malformed | Given(value: T)

  datatype Item<+T> = NotObject | Object(value: T)

  // A codec or header extension parameter; Other stands for booleans, arrays and objects.
  datatype Param = Text(text: string) | Integer(number: int) | Fraction(decimal: real) | Null | Other

  type Params = map<string, Param>

  datatype RawFeedback = RawFeedback(kind: Field<string>, parameter: Field<string>)

  datatype Feedback = Feedback(kind: string, parameter: string)

  // payloadType is preferredPayloadType in a capability. A capability's kind is overwritten unread.
  datatype RawCodec = RawCodec(
    mimeType: Field<string>, payloadType: Field<int>, clockRate: Field<int>, channels: Field<int>,
    parameters: Field<Params>, rtcpFeedback: Field<seq<Item<RawFeedback>>>)

  datatype Codec = Codec(
    mimeType: string, kind: string, payloadType: Option<int>, clockRate: int, channels: Option<int>,
    parameters: Params, rtcpFeedback: seq<Feedback>)

  // Directions are compared as exact text.
  datatype Direction = SendRecv | SendOnly | RecvOnly | Inactive | OtherDirection(text: string)

  datatype RawExtension = RawExtension(
    kind: Field<string>, uri: Field<string>, preferredId: Field<int>, preferredEncrypt: Field<bool>,
    direction: Field<Direction>)

  datatype Extension = Extension(kind: string, uri: string, preferredId: int, preferredEncrypt: bool,
                                 direction: Direction)

  datatype RawCapabilities = RawCapabilities(
    codecs: Field<seq<Item<RawCodec>>>, headerExtensions: Field<seq<Item<RawExtension>>>)

  datatype Capabilities = Capabilities(codecs: seq<Codec>, headerExtensions: seq<Extension>)

  datatype RawExtensionParameters = RawExtensionParameters(
    uri: Field<string>, id: Field<int>, encrypt: Field<bool>, parameters: Field<Params>)

  datatype ExtensionParameters = ExtensionParameters(uri: string, id: int, encrypt: bool, parameters: Params)

  // rtx is the ssrc inside the rtx object.
  datatype RawEncoding = RawEncoding(
    ssrc: Field<int>, rid: Field<string>, rtx: Field<Field<int>>, dtx: Field<bool>, scalabilityMode: Field<string>)

  datatype Encoding = Encoding(ssrc: Option<int>, rid: Option<string>, rtx: Option<int>, dtx: bool,
                               scalabilityMode: Option<string>)

  datatype RawRtcp = RawRtcp(cname: Field<string>, reducedSize: Field<bool>)

  datatype Rtcp = Rtcp(cname: Option<string>, reducedSize: bool)

  datatype RawParameters = RawParameters(
    mid: Field<string>, codecs: Field<seq<Item<RawCodec>>>, headerExtensions: Field<seq<Item<RawExtensionParameters>>>,
    encodings: Field<seq<Item<RawEncoding>>>, rtcp: Field<RawRtcp>)

  datatype Parameters = Parameters(
    mid: Option<string>, codecs: seq<Codec>, headerExtensions: seq<ExtensionParameters>,
    encodings: seq<Encoding>, rtcp: Rtcp)
}
