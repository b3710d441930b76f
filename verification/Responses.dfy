/**
 Expected responses (src/transmission/bidib_transmission_responses.c): for each
 message type below 0x80 the number of response bytes to reserve and the message
 types that answer it. Types not listed expect no response.
 */
module Responses {
  import opened Bytes

  const MSG_SYS_MAGIC: byte := 0x81
  const MSG_SYS_PONG: byte := 0x82
  const MSG_SYS_P_VERSION: byte := 0x83
  const MSG_SYS_UNIQUE_ID: byte := 0x84
  const MSG_SYS_SW_VERSION: byte := 0x85
  const MSG_SYS_ERROR: byte := 0x86
  const MSG_SYS_IDENTIFY_STATE: byte := 0x87
  const MSG_NODETAB_COUNT: byte := 0x88
  const MSG_NODETAB: byte := 0x89
  const MSG_PKT_CAPACITY: byte := 0x8A
  const MSG_NODE_NA: byte := 0x8B
  const MSG_FW_UPDATE_STAT: byte := 0x8F
  const MSG_FEATURE: byte := 0x90
  const MSG_FEATURE_NA: byte := 0x91
  const MSG_FEATURE_COUNT: byte := 0x92
  const MSG_VENDOR: byte := 0x93
  const MSG_VENDOR_ACK: byte := 0x94
  const MSG_STRING: byte := 0x95
  const MSG_BM_OCC: byte := 0xA0
  const MSG_BM_FREE: byte := 0xA1
  const MSG_BM_MULTIPLE: byte := 0xA2
  const MSG_BM_CONFIDENCE: byte := 0xA9
  const MSG_BOOST_STAT: byte := 0xB0
  const MSG_ACCESSORY_STATE: byte := 0xB8
  const MSG_ACCESSORY_PARA: byte := 0xB9
  const MSG_LC_STAT: byte := 0xC0
  const MSG_LC_NA: byte := 0xC1
  const MSG_LC_CONFIG: byte := 0xC2
  const MSG_LC_KEY: byte := 0xC3
  const MSG_LC_CONFIGX: byte := 0xC6
  const MSG_LC_MACRO_STATE: byte := 0xC8
  const MSG_LC_MACRO: byte := 0xC9
  const MSG_LC_MACRO_PARA: byte := 0xCA
  const MSG_CS_STATE: byte := 0xE1
  const MSG_CS_DRIVE_ACK: byte := 0xE2
  const MSG_CS_ACCESSORY_ACK: byte := 0xE3
  const MSG_CS_POM_ACK: byte := 0xE4
  const MSG_CS_RCPLUS_ACK: byte := 0xE8
  const MSG_CS_PROG_STATE: byte := 0xEF

  datatype Response = Response(size: nat, types: seq<byte>)

  function ResponseInfo(msgType: byte): Response {
    match msgType
    case 0x01 => Response(6, [MSG_SYS_MAGIC])
    case 0x02 => Response(6, [MSG_SYS_P_VERSION])
    case 0x05 => Response(11, [MSG_SYS_UNIQUE_ID])
    case 0x06 => Response(7, [MSG_SYS_SW_VERSION])
    case 0x07 => Response(5, [MSG_SYS_PONG])
    case 0x08 => Response(5, [MSG_SYS_IDENTIFY_STATE])
    case 0x0A => Response(5, [MSG_PKT_CAPACITY])
    case 0x0B => Response(5, [MSG_NODETAB_COUNT])
    case 0x0C => Response(13, [MSG_NODETAB, MSG_NODE_NA, MSG_NODETAB_COUNT])
    case 0x0E => Response(10, [MSG_SYS_ERROR])
    case 0x0F => Response(6, [MSG_FW_UPDATE_STAT])
    case 0x10 => Response(5, [MSG_FEATURE_COUNT])
    case 0x11 => Response(6, [MSG_FEATURE, MSG_FEATURE_NA])
    case 0x12 => Response(6, [MSG_FEATURE])
    case 0x13 => Response(6, [MSG_FEATURE])
    case 0x14 => Response(5, [MSG_VENDOR_ACK])
    case 0x15 => Response(5, [MSG_VENDOR_ACK])
    case 0x16 => Response(32, [MSG_VENDOR])
    case 0x17 => Response(32, [MSG_VENDOR])
    case 0x19 => Response(30, [MSG_STRING])
    case 0x1A => Response(30, [MSG_STRING])
    case 0x20 => Response(21, [MSG_BM_MULTIPLE, MSG_BM_OCC, MSG_BM_FREE])
    case 0x25 => Response(7, [MSG_BM_CONFIDENCE])
    case 0x30 => Response(5, [MSG_BOOST_STAT])
    case 0x31 => Response(5, [MSG_BOOST_STAT])
    case 0x32 => Response(5, [MSG_BOOST_STAT])
    case 0x38 => Response(9, [MSG_ACCESSORY_STATE])
    case 0x39 => Response(9, [MSG_ACCESSORY_STATE])
    case 0x3A => Response(9, [MSG_ACCESSORY_PARA])
    case 0x3B => Response(9, [MSG_ACCESSORY_PARA])
    case 0x40 => Response(7, [MSG_LC_STAT, MSG_LC_NA])
    case 0x41 => Response(10, [MSG_LC_CONFIG, MSG_LC_NA])
    case 0x42 => Response(10, [MSG_LC_CONFIG, MSG_LC_NA])
    case 0x43 => Response(6, [MSG_LC_KEY, MSG_LC_NA])
    case 0x44 => Response(7, [MSG_LC_STAT, MSG_LC_NA])
    case 0x46 => Response(40, [MSG_LC_CONFIGX])
    case 0x47 => Response(40, [MSG_LC_CONFIGX])
    case 0x48 => Response(6, [MSG_LC_MACRO_STATE])
    case 0x49 => Response(10, [MSG_LC_MACRO])
    case 0x4A => Response(10, [MSG_LC_MACRO])
    case 0x4B => Response(10, [MSG_LC_MACRO_PARA])
    case 0x4C => Response(10, [MSG_LC_MACRO_PARA])
    case 0x62 => Response(5, [MSG_CS_STATE])
    case 0x64 => Response(7, [MSG_CS_DRIVE_ACK])
    case 0x65 => Response(7, [MSG_CS_ACCESSORY_ACK])
    case 0x66 => Response(7, [MSG_CS_DRIVE_ACK])
    case 0x67 => Response(10, [MSG_CS_POM_ACK])
    case 0x68 => Response(11, [MSG_CS_RCPLUS_ACK])
    case 0x6F => Response(5, [MSG_CS_PROG_STATE])
    case _ => Response(0, [])
  }

  /** Bytes reserved for the responses to a message of this type. */
  function SizeOf(msgType: byte): nat {
    ResponseInfo(msgType).size
  }

  /** No response is larger than 40 bytes, and bytes are reserved exactly for the types that are answered. */
  lemma SizesAreSmall(msgType: byte)
    ensures SizeOf(msgType) <= 40
    ensures SizeOf(msgType) > 0 <==> ResponseInfo(msgType).types != []
  {}
}
