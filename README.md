# CUAP gateway core in Dafny

This project models the core of a CUAP (a vendor USSD gateway protocol) gateway
written in C++, and proves properties of that model. CUAP messages (PDUs) are
fixed-capacity, zero-initialised byte buffers with fixed field offsets. They
are built, read and patched in place, and their 20-byte header is
byte-swapped before a PDU goes on the wire and after it comes off.

What is modelled, file by file:

- `bytes.dfy`: bytes, little-endian 16/32-bit words (the host is taken to be
  little-endian), `htobe32` as a 4-byte reversal, the zero-fill-then-copy
  range write every setter reduces to (`Splice`), and the C-string read every
  string getter performs (`CStringAt`).
- `buffer.dfy`: `misc::static_buffer` as the class `StaticBuffer`, a byte
  array plus the append cursor `offset`, with its constructors, `assign`,
  `assign_n`, `erase`, `fill`, `clear`, the getters, `operator+=` and `size()`.
- `types.dfy`: the command-id registry, the five header words,
  `basic_header`'s setters, getters and `is_*` tests, and
  `encode_header`/`decode_header`.
- `functions.dfy`: the free-function mirror of the layouts in
  `pdu/functions.h` (`is_equal`, `set_null`, `strlen`, `set_field`,
  `get_field`, `header::*`, `is_cuap_msg`, the `bind_msg` and `begin_msg`
  accessors, and `switch_msg::switchmode`).
- `login.dfy`, `session_sa.dfy`, `service_forwarding.dfy`, `charging.dfy`:
  the Bind, Begin/Continue/End, Switch, SwitchBegin and ChargeInd bodies and
  the 20-byte generic header messages.
- `misc.dfy`: `pdu_name`, `op_name` and `check_json`. A JSON object is a map
  from keys to what `asUInt()`, `asString()` and `asCString()` return.
- `config.dfy`: `parse_url`, with `size_t` wrap-around and the
  `out_of_range` thrown by `substr` written out.
- `reply.dfy`: how `build_begin` and `build_continue` fill the outbound reply.
  The fields are copied from the decoded request, then one of the HTTP-outcome
  branches runs, then `set_command_len()` and `encode_header()`.
- `gateway.dfy`: `setup_bind`, `on_connect`, and the `on_message` dispatch
  with its session counter. The gateway is the class `Gateway`. The
  function `Step` states what one message does: the new counter, the HTTP
  request made and the PDU sent back.

The HTTP exchange is an outcome datatype, `Failed | OkUnparsable |
OkNonObject | OkJson(object)`, passed in as a parameter. `OkNonObject` is a
body that parses to an array, a number, a string or a boolean, on which
`isMember` throws; `null` behaves as the empty object. The callback that fills the reply
runs before `on_message` returns. The whitelist is a given set of MSISDNs.

The model follows the code where it departs from its own comments or from
what its names suggest:

- An empty whitelist does not switch the MSISDN filter off: a Begin whose
  MSISDN is not in the set is never served (gateway.h:361).
- A response body without an "msisdn" member fails `check_json`, so it gets
  the invalid-data reply even when it carries "command", "content" and
  "op_type".
- The Begin request sends the request's USSD content, not its service code,
  although a comment at gateway.h:521 says otherwise.

## Model

| member | source | states |
|---|---|---|
| Bytes.LE32RoundTrip | pdu/buffer.h:276-284 | reading back the four bytes a uint32 was copied into gives the same value |
| Bytes.FromLE32RoundTrip | pdu/buffer.h:276-284 | any four bytes are the little-endian image of the word read from them |
| Bytes.LE16RoundTrip | pdu/buffer.h:234 | a uint16 stored as two bytes reads back unchanged |
| Bytes.Bswap32Involutive | pdu/types.h:149-152 | `htobe32` applied twice is the identity |
| Bytes.PutSwappedWord | pdu/types.h:142-146 | replacing a word by its `htobe32` reverses its four bytes |
| Bytes.GetPutU32 | pdu/buffer.h:235 | storing a uint32 at an offset and reading it back there gives the value |
| Bytes.GetPutU16 | pdu/buffer.h:234 | storing a uint16 at an offset and reading it back there gives the value |
| Bytes.Splice | pdu/buffer.h:239-244 | the zero-fill-then-copy range write: the length is kept, nothing outside [b, e) changes, the first min(sz, e-b) bytes of the range come from the source and the rest are zero; an empty range changes nothing |
| Bytes.CStringAt | pdu/functions.h:430-440 | the string getters' read: a zero-free slice of the buffer starting at b, ending before e and before the end, stopped only by a zero byte, e or the end |
| Bytes.CStringAtUnique | pdu/functions.h:430-440 | any zero-free slice at b that is followed by a zero, e or the end of the buffer is what the getter returns |
| Bytes.SpliceThenRead | pdu/session_sa.h:30-49 | writing a zero-free value into a field and reading the field back returns the copied prefix of the value |
| Bytes.SpliceThenReadPrefix | pdu/session_sa.h:30-49 | reading a field after writing it reads only the copied window of the value |
| Bytes.CStringAtClip | pdu/session_sa.h:33 | bounding the read by the capacity as well as by the field end does not change it |
| Bytes.SpliceWindowIs | pdu/buffer.h:239-244 | after a range write, the range holds exactly the copied-and-zero-padded window and the bytes before and after are unchanged |
| Buffer.UsedSize | pdu/buffer.h:308-319 | `size()`: one past the last non-zero byte when that byte is at index 1 or later, 0 when bytes 1.. are all zero (byte 0 is never looked at), -1 for a zero-capacity buffer |
| Buffer.UsedSizeIs | pdu/buffer.h:308-319 | a last non-zero byte at index n-1 >= 1 fixes `size()` at n |
| Buffer.CopiedOut | pdu/functions.h:189-194 | the getters that fill a caller's array: the copied bytes first, zeros up to the cleared length, the old contents beyond |
| Buffer.CopyOut | pdu/functions.h:189-194 | `set_null` then `memcpy` leaves the destination as `CopiedOut` describes |
| Buffer.StaticBuffer.Default | pdu/buffer.h:326-328 | a default-constructed buffer is all zeros with `offset == 0` |
| Buffer.StaticBuffer.FromPointer | pdu/buffer.h:124-129 | construction from a pointer and length copies min(SIZE, len) bytes, leaves the rest zero and keeps `offset == 0` |
| Buffer.StaticBuffer.FromSeq | pdu/buffer.h:134-175 | construction from an array or string copies the same prefix and sets `offset` to min(len, SIZE) |
| Buffer.StaticBuffer.Filled | pdu/buffer.h:131 | construction from a value sets every byte to it |
| Buffer.StaticBuffer.FromRange | pdu/buffer.h:341-346 | construction from a range appends its bytes and leaves the cursor after them |
| Buffer.StaticBuffer.Copy | pdu/buffer.h:180-186 | copy and move construction give the same bytes and cursor, so the copy is a well-formed buffer |
| Buffer.StaticBuffer.CopyFrom | pdu/buffer.h:188-198 | copy and move assignment give the same bytes and cursor, so the target stays a well-formed buffer |
| Buffer.StaticBuffer.Erase | pdu/buffer.h:264-267 | `erase(b, e)` zeroes exactly [b, e) |
| Buffer.StaticBuffer.AssignN | pdu/buffer.h:238-244 | `assign_n` zero-fills [b, e), copies min(sz, e-b) bytes of the source to its start, and changes nothing outside [b, e) and not the cursor |
| Buffer.StaticBuffer.Assign | pdu/buffer.h:222-231 | `assign(src, b, e)` fills all of [b, e) from the source |
| Buffer.StaticBuffer.Assign8 | pdu/buffer.h:233 | a byte store changes that byte only |
| Buffer.StaticBuffer.Assign16 | pdu/buffer.h:234 | a uint16 store changes two bytes and `get_u16` reads the value back |
| Buffer.StaticBuffer.Assign32 | pdu/buffer.h:235 | a uint32 store changes bytes o..o+3 only and `get_u32` reads the value back |
| Buffer.StaticBuffer.FillN | pdu/buffer.h:259 | `fill_n` sets the first sz bytes and leaves the others |
| Buffer.StaticBuffer.Fill | pdu/buffer.h:257 | `fill` sets every byte |
| Buffer.StaticBuffer.Clear | pdu/buffer.h:261 | `clear` zeroes every byte and resets the cursor to 0 |
| Buffer.StaticBuffer.Push8 | pdu/buffer.h:389-393 | appending a byte writes it at the old cursor and advances the cursor by 1 |
| Buffer.StaticBuffer.Push16 | pdu/buffer.h:287 | appending a uint16 writes it at the old cursor and advances the cursor by 2 |
| Buffer.StaticBuffer.Push32 | pdu/buffer.h:288 | appending a uint32 writes it at the old cursor and advances the cursor by 4 |
| Buffer.StaticBuffer.AppendBytes | pdu/buffer.h:396-402 | `append_sv` writes the bytes at the cursor, advances it by their number and changes nothing else |
| Buffer.StaticBuffer.Size | pdu/buffer.h:308-319 | the downward scan returns `UsedSize` of the contents |
| Types.CommandOf | pdu/types.h:30-37 | decoding an id gives the command whose registry constant it is, and that command whenever one exists |
| Types.CodeInjective | pdu/types.h:30-37 | the registry constants are distinct |
| Types.FieldAt | pdu/types.h:39-40 | every byte of the first 20 lies in the slot of one header field |
| Types.HeaderSlotsTile | pdu/types.h:39-40 | the five 4-byte slots at 0, 4, 8, 12 and 16 are disjoint and cover exactly the 20 header bytes |
| Types.SetHeaderWord | pdu/types.h:105-109 | a header setter keeps the length and every body byte |
| Types.SetHeaderWordThenRead | pdu/types.h:105-115 | each header setter and getter round-trip; no other header word and no body byte changes |
| Types.IsCommandExclusive | pdu/types.h:119-138 | at most one `is_X()` holds for any buffer |
| Types.Mirror | pdu/types.h:140-147 | the byte that a header byte swaps with lies in the same header word |
| Types.SwapHeader | pdu/types.h:140-147 | `encode_header` keeps the length and every byte from index 20 on |
| Types.SwapHeaderReverses | pdu/types.h:140-147 | `encode_header` byte-reverses each of the five header words |
| Types.SwapHeaderWord | pdu/types.h:140-147 | after `encode_header` each header getter returns `htobe32` of what it returned before |
| Types.MirrorInvolutive | pdu/types.h:149-152 | swapping a header byte's position twice gives the position back |
| Types.SwapHeaderInvolutive | pdu/types.h:149-152 | `decode_header` after `encode_header` restores the buffer |
| Types.SwapWordAt | pdu/types.h:142-146 | one line of `encode_header` reverses its own word and changes no other byte |
| Types.MirrorInWord | pdu/types.h:140-147 | inside a word, byte k swaps with byte 3-k |
| Types.SwapWordKeeps | pdu/types.h:142-146 | one line of `encode_header` leaves the other four words and the body untouched |
| Types.OffsetsApart | pdu/types.h:39-40 | distinct header fields have non-overlapping slots |
| Types.SameSlots | pdu/types.h:39-40 | buffers that agree on all five slots and on the body are equal |
| Types.SwapWordsMakeSwapHeader | pdu/types.h:140-147 | the five in-place steps of `encode_header`, in order, compose to reversing every word |
| Types.StepsReverseOnce | pdu/types.h:140-147 | after the five steps each word has been reversed exactly once |
| Types.SetHeader | pdu/types.h:105-109 | a header setter on a buffer rewrites one word as `SetHeaderWord` says |
| Types.SetCommandLenFromSize | pdu/types.h:104 | `set_command_len()` stores the buffer's `size()` (as a uint32) in bytes 0..3 |
| Types.ContentInto | pdu/service_forwading.h:67-74 | `ussd_content(dest, sz)` zeroes sz bytes of the destination and copies `command_len()` minus the content offset bytes, which must fit in the buffer and the destination |
| Types.EncodeHeader | pdu/types.h:140-147 | the five in-place swaps leave the buffer as `SwapHeader` of what it was |
| Types.DecodeHeader | pdu/types.h:149-152 | `decode_header` is the same operation as `encode_header` |
| Functions.IsEqual | pdu/functions.h:65-78 | `is_equal` is true iff the first min(N1, N2) elements agree, for `int16_t` lengths (a negative length compares nothing) |
| Functions.CLen | pdu/functions.h:104-111 | the index of the first zero element: all before it are non-zero |
| Functions.Strlen | pdu/functions.h:104-111 | the `strlen` loop returns that index |
| Functions.SetNullRange | pdu/functions.h:91-96 | `set_null(data, b, e)` zeroes exactly [b, e) |
| Functions.SetNull | pdu/functions.h:80-89 | `set_null(data, SZ)` zeroes the first SZ bytes |
| Functions.SetField | pdu/functions.h:157-163 | `set_field` with a size zeroes [b, e), copies min(src_sz, e-b) bytes and leaves everything outside [b, e) |
| Functions.SetFieldCString | pdu/functions.h:165-171 | the unsized `set_field` copies the value up to its first zero byte or until e, whichever comes first |
| Functions.SetFieldU8 | pdu/functions.h:174 | a byte store |
| Functions.SetFieldU16 | pdu/functions.h:177-179 | a two-byte little-endian store |
| Functions.SetFieldU32 | pdu/functions.h:182-184 | a four-byte little-endian store |
| Functions.GetField | pdu/functions.h:202-209 | `get_field<T>`: the little-endian image of the returned word is the `sizeof(T)` bytes at the offset followed by zeros |
| Functions.GetFieldU32 | pdu/functions.h:202-209 | `get_field<uint32_t>`: the four bytes at the offset are the image of the returned word, which is the word `get_u32` reads |
| Functions.SetHeaderField | pdu/functions.h:279-302 | `header::set_*` writes one header word and the matching reader returns the written value |
| Functions.IsCuapMsg | pdu/functions.h:325-340 | `is_cuap_msg` is true iff the low 8 bits of the raw id are one of the 14 listed ids |
| Functions.CuapIdsAreRegistry | pdu/functions.h:325-326 | the 14 listed ids are the registry commands other than Error, and truncation accepts ids such as 0x16f that are no command |
| Functions.ScanCString | pdu/functions.h:456-465 | the getter loop returns the C string at the field |
| Functions.BindSetSystemId | pdu/functions.h:355-358 | `set_system_id` writes the 11-byte system-id field only |
| Functions.BindSetPassword | pdu/functions.h:366-372 | `set_password` writes the 9-byte password field only |
| Functions.BindSetSystemType | pdu/functions.h:380-386 | `set_system_type` writes the 13-byte system-type field only |
| Functions.BindSetInterfaceVersion | pdu/functions.h:393-396 | `set_interface_version` stores the word at 53 and `interface_version` reads it back |
| Functions.BeginMsisdn | pdu/functions.h:430-440 | `msisdn` returns the bytes from offset 22 up to the first zero, at most 21 |
| Functions.BeginServiceCodeView | pdu/functions.h:456-465 | `service_code(string_view)` does the same from offset 43 and never reads past the view |
| Functions.BeginServiceCode | pdu/functions.h:467-477 | `service_code(pointer)` reads at most 21 bytes from offset 43 |
| Functions.BeginUssdContentView | pdu/functions.h:494-503 | `ussd_content(string_view)` reads from offset 65 up to the first zero or the end of the view |
| Functions.BeginUssdContentSized | pdu/functions.h:505-515 | `ussd_content(buffer, size)` reads from offset 65 up to the first zero or `size` |
| Functions.BeginSetMsisdn | pdu/functions.h:528-532 | `set_msisdn` writes only [22, 43) |
| Functions.BeginSetServiceCode | pdu/functions.h:534-538 | `set_service_code` writes only [43, 64) |
| Functions.BeginSetUssdContent | pdu/functions.h:540-546 | `set_ussd_content` writes only [65, 247), copying `command_len() - 65` bytes |
| Functions.BeginSetCodeScheme | pdu/functions.h:523-526 | a byte store at 64 |
| Functions.BeginSetUssdOpType | pdu/functions.h:548-551 | a byte store at 21 |
| Functions.BeginSetUssdVersion | pdu/functions.h:553-556 | a byte store at 20 |
| Functions.BeginSetMsisdnThenRead | pdu/functions.h:528-538 | after `set_msisdn`, `msisdn` reads the first 21 bytes of the value up to a zero, and `service_code` reads as before |
| Functions.BeginSetServiceCodeThenRead | pdu/functions.h:528-538 | after `set_service_code`, `service_code` reads the first 21 bytes of the value up to a zero, and `msisdn` reads as before |
| Functions.SwitchModeOf | pdu/functions.h:565-568 | `switch_msg::switchmode`, read through `get_field<uint8_t>`, is the byte at 20 |
| Login.ReadSystemId | pdu/login.h:60-69 | `system_id()` is the C string in [20, 31), at most 11 bytes |
| Login.ReadPassword | pdu/login.h:71-80 | `password()` is the C string in [31, 40), at most 9 bytes |
| Login.SetSystemId | pdu/login.h:22-33 | `set_system_id` is `assign_n` over [20, 31) |
| Login.SetPassword | pdu/login.h:96-104 | `set_password` is `assign_n` over [31, 40) |
| Login.SetSystemType | pdu/login.h:113-121 | `set_system_type` is `assign_n` over [40, 53) |
| Login.SetInterfaceVer | pdu/login.h:123-127 | `set_interface_ver` stores the word at 53 and `interface_ver()` reads it back |
| Login.SystemIdRoundTrip | pdu/login.h:22-69 | after `set_system_id(s)`, `system_id()` is s when s is zero-free and at most 11 bytes, its first 11 bytes when longer; password and interface version are kept |
| Login.PasswordRoundTrip | pdu/login.h:71-104 | after `set_password(p)`, `password()` is p when p is zero-free and at most 9 bytes; system id and interface version are kept |
| Login.SystemTypeFrame | pdu/login.h:113-121 | `set_system_type` writes only [40, 53): system id, password, interface version and header are kept |
| Login.InterfaceVerFrame | pdu/login.h:123-127 | `set_interface_ver(v)` reads back as v and changes only bytes 53..56 |
| Login.GenericHeader | pdu/login.h:145-152 | the bytes of a default-constructed generic header message: 20 of them |
| Login.NewGenericHeader | pdu/login.h:145-152 | the constructor's five setters and `encode_header` produce `GenericHeader` |
| Login.GenericHeaderDecodes | pdu/login.h:145-152 | decoding a generic header gives length 20, the command id, status 0 and sender and receiver 0xFFFFFFFF |
| Login.ReadBackFive | pdu/login.h:145-150 | the five setters of the constructor each leave their own value readable |
| SessionSa.ReadMsisdn | pdu/session_sa.h:30-39 | `msisdn()` is the C string in [22, 43) |
| SessionSa.ReadServiceCode | pdu/session_sa.h:58-68 | `service_code()` is the C string in [43, 64) |
| SessionSa.ReadUssdContent | pdu/session_sa.h:80-89 | `ussd_content()` is the C string from 65 to the end of the buffer |
| SessionSa.MsisdnInto | pdu/session_sa.h:23-28 | the array form clears the destination and copies the 21 MSISDN bytes |
| SessionSa.ServiceCodeInto | pdu/session_sa.h:51-56 | the array form clears the destination and copies the 21 service-code bytes |
| SessionSa.UssdContentInto | pdu/session_sa.h:98-102 | the sized form clears sz bytes and copies `command_len() - 65` content bytes |
| SessionSa.SetMsisdn | pdu/session_sa.h:41-49 | `set_msisdn` is `assign_n` over [22, 43) |
| SessionSa.SetServiceCode | pdu/session_sa.h:70-78 | `set_service_code` is `assign_n` over [43, 64) |
| SessionSa.SetUssdContent | pdu/session_sa.h:104-112 | `set_ussd_content` zero-fills [65, 247) and copies at most 182 bytes |
| SessionSa.SetUssdVer | pdu/session_sa.h:114-118 | the byte at 20, read back by `ussd_ver()` |
| SessionSa.SetUssdOpType | pdu/session_sa.h:120-124 | the byte at 21, read back by `ussd_op_type()` |
| SessionSa.SetCodeScheme | pdu/session_sa.h:126-130 | the byte at 64, read back by `code_scheme()` |
| SessionSa.OpTypeAfterSet | pdu/session_sa.h:133-136 | after `set_ussd_op_type(v)` exactly the `op_type_*` test for v holds when v is 1..4, and none otherwise |
| SessionSa.MsisdnRoundTrip | pdu/session_sa.h:30-49 | after `set_msisdn(s)`, `msisdn()` is s when s is zero-free and at most 21 bytes, its first 21 bytes up to a zero otherwise; service code and content are kept |
| SessionSa.ServiceCodeRoundTrip | pdu/session_sa.h:58-78 | the same round trip for the service code; MSISDN and content are kept |
| SessionSa.UssdContentRoundTrip | pdu/session_sa.h:80-112 | content with no zero byte and fewer than 182 bytes reads back exactly; MSISDN and service code are kept |
| SwitchMsg.SetSwitchMode | pdu/service_forwading.h:17-21 | `set_switch_mode` then `switch_mode()` round-trips at byte 20 |
| SwitchMsg.SetMsisdn | pdu/service_forwading.h:30-35 | `assign_n` over [21, 42) |
| SwitchMsg.SetOriginatingSc | pdu/service_forwading.h:45-50 | `assign_n` over [42, 63) |
| SwitchMsg.SetDestinationSc | pdu/service_forwading.h:60-65 | `assign_n` over [63, 84) |
| SwitchMsg.SetUssdContent | pdu/service_forwading.h:76-80 | `assign_n` over [84, 266), at most 182 bytes |
| SwitchMsg.MsisdnInto | pdu/service_forwading.h:23-28 | clears the destination and copies 21 bytes from 21 |
| SwitchMsg.OriginatingScInto | pdu/service_forwading.h:37-43 | clears the destination and copies 21 bytes from 42 |
| SwitchMsg.DestinationScInto | pdu/service_forwading.h:52-58 | clears the destination and copies 21 bytes from 63 |
| SwitchMsg.UssdContentInto | pdu/service_forwading.h:67-74 | clears sz bytes and copies `command_len() - 84` bytes from 84 |
| SwitchMsg.FieldsRoundTrip | pdu/service_forwading.h:30-65 | each of the three string setters fills its own 21-byte range with the copied, zero-padded window and changes nothing else, the switch mode included |
| SwitchMsg.ContentRoundTrip | pdu/service_forwading.h:76-80 | the content setter fills [84, 266) and keeps everything before it and the two bytes after it |
| SwitchBeginMsg.SetUssdVer | pdu/service_forwading.h:90-94 | byte 20, read back |
| SwitchBeginMsg.SetUssdOpType | pdu/service_forwading.h:96-100 | byte 21, read back |
| SwitchBeginMsg.SetCodeScheme | pdu/service_forwading.h:102-106 | byte 85, read back |
| SwitchBeginMsg.SetMsisdn | pdu/service_forwading.h:115-120 | `assign_n` over [22, 43) |
| SwitchBeginMsg.SetOriginatingSc | pdu/service_forwading.h:130-135 | `assign_n` over [43, 64) |
| SwitchBeginMsg.SetDestinationSc | pdu/service_forwading.h:145-150 | `assign_n` over [64, 86), as written |
| SwitchBeginMsg.SetDestinationScFixed | pdu/service_forwading.h:145-150 | `assign_n` over [64, 85), the destination service code's own 21 bytes |
| SwitchBeginMsg.SetUssdContent | pdu/service_forwading.h:161-165 | `assign_n` over [86, 268), which ends exactly at the 268-byte capacity |
| SwitchBeginMsg.MsisdnInto | pdu/service_forwading.h:108-113 | clears the destination and copies 21 bytes from 22 |
| SwitchBeginMsg.OriginatingScInto | pdu/service_forwading.h:122-128 | clears the destination and copies 21 bytes from 43 |
| SwitchBeginMsg.DestinationScInto | pdu/service_forwading.h:137-143 | clears the destination and copies 21 bytes from 64 |
| SwitchBeginMsg.UssdContentInto | pdu/service_forwading.h:152-159 | clears sz bytes and copies `command_len() - 86` bytes from 86 |
| SwitchBeginMsg.DestinationScClobbersCodeScheme | pdu/service_forwading.h:145-150 | as written, `set_destination_SC` overwrites `code_scheme()` with the value's 22nd byte, or zero |
| SwitchBeginMsg.DestinationScClobbersExample | pdu/service_forwading.h:145-150 | a code scheme of 0x0F reads 0 after a 21-byte destination code is set |
| SwitchBeginMsg.DestinationScFixedKeepsCodeScheme | pdu/service_forwading.h:145-150 | the corrected setter fills only the 21-byte field and keeps the code scheme and every other byte |
| SwitchBeginMsg.FieldsRoundTrip | pdu/service_forwading.h:115-135 | the MSISDN and originating-code setters fill their own 21-byte ranges and change nothing else |
| Charging.SetChargeRatio | pdu/charging.h:18-22 | the word at 20, read back by `charge_ratio()` |
| Charging.SetChargeType | pdu/charging.h:24-28 | the word at 24, read back by `charge_type()` |
| Charging.SetChargeLoc | pdu/charging.h:47-57 | the byte at 39, read back by `charge_loc()` |
| Charging.ChargeSrcInto | pdu/charging.h:30-36 | `charge_src` clears the destination and copies 21 bytes from 28 |
| Charging.SetChargeSrc | pdu/charging.h:40-45 | `set_charge_src` as written: `assign_n` with begin 39 and end 28 |
| Charging.SetChargeSrcFixed | pdu/charging.h:40-45 | the corrected setter: `assign_n` over [28, 39) |
| Charging.SettersIndependent | pdu/charging.h:18-57 | ratio, type and location setters each read back and keep the other two fields |
| Charging.ChargeSrcCoversLocation | pdu/charging.h:30-36 | the 21 bytes `charge_src` copies include the location byte at 39, and the 50-byte capacity holds them |
| Charging.SetChargeSrcIsNoOp | pdu/charging.h:40-45 | as written, `set_charge_src` leaves the buffer unchanged for every value and size |
| Charging.SetChargeSrcExample | pdu/charging.h:40-45 | setting source "SP01" on a zero buffer leaves the source bytes zero |
| Charging.SetChargeSrcFixedRoundTrip | pdu/charging.h:40-45 | the corrected setter fills [28, 39) with the copied window and keeps the location, ratio and type |
| Misc.PduName | misc.h:115-178 | a name other than "Unknown Command" exactly for the registry commands other than Error; PduNameKnown adds that distinct ids get distinct names |
| Misc.PduNameOf | misc.h:110-113 | `pdu_name(pdu)` names the `htobe32` of the id `decode_header` would give, since it reads the raw word; PduNameNeedsDecode and EncodedIsUnknown draw the consequences |
| Misc.OpName | misc.h:181-212 | non-empty exactly for the op types 1..4; OpNameKnown adds that they get distinct names |
| Misc.PduNameKnown | misc.h:115-178 | `pdu_name` names an id iff it is a registry command other than Error, returns "Unknown Command" for Error, and gives distinct commands distinct names |
| Misc.NamesDistinct | misc.h:115-172 | two commands with the same name are the same command |
| Misc.PduNameNeedsDecode | misc.h:110-113 | given a PDU, `pdu_name` reads the raw id word: an encoded generic header is "Unknown Command", the decoded one gets its name |
| Misc.EncodedIsUnknown | misc.h:110-113 | for any PDU whose decoded id is a named command, the raw (encoded) PDU is "Unknown Command" |
| Misc.SwappedCodeWord | pdu/types.h:140-147 | a small id decoded from the header is stored on the wire as the id times 2^24 |
| Misc.Bswap32Small | pdu/types.h:142-146 | `htobe32` of a byte-sized value is the value times 2^24 |
| Misc.OpNameKnown | misc.h:181-212 | `op_name` is non-empty exactly for 1..4 and gives distinct values distinct names |
| Misc.CheckJson | misc.h:254-269 | true iff "command" is present and is Begin, Continue or End with "msisdn" and "content" present, or Bind with "system_id" present; undefined exactly when "command" does not convert |
| Misc.CheckJsonRejects | misc.h:256-268 | false whenever "command" is absent and for any other command value |
| Config.FindFirst | config.h:71 | `find_first_of`: npos iff the character is absent, otherwise the index of its first occurrence |
| Config.Substr | config.h:72 | `substr`: defined iff the position is at most the length, then the clipped slice |
| Config.Wrap | config.h:74 | `size_t` sums and differences wrap modulo 2^64 |
| Config.ParseUrl | config.h:68-83 | a parsed url's protocol is its prefix before the first ':' (the whole url when there is none), its host holds no ':' and its path starts with '/'; ParseUrlSplits and ParseUrlRebuilds give the round trip, NoPathThrows and NoPortQuirk the edge cases |
| Config.SplitAuthority | config.h:75-80 | the split after "://" keeps the protocol, gives a host without ':' and a path that starts with '/' |
| Config.FindFirstAt | config.h:75-78 | a character first found after a known prefix is found at the prefix's length |
| Config.SchemeSplits | config.h:71-74 | for p + "://" + rest, the rest of the parse sees exactly `rest` |
| Config.AuthorityIndices | config.h:75-78 | in h + ":" + n + "/" + r the first ':' and first '/' are at the ends of h and of n |
| Config.AuthoritySplits | config.h:75-80 | such a rest splits into host h, port n and path "/" + r |
| Config.SplitWellFormed | config.h:76-80 | the three `substr` calls at those positions give host, port and path |
| Config.ParseUrlSplits | config.h:68-83 | for p + "://" + h + ":" + n + "/" + r with p, h free of ':' and h, n free of '/', the parse gives (p, h, n, "/" + r) |
| Config.ParseUrlRebuilds | config.h:68-83 | under the same condition protocol + "://" + host + ":" + port + path is the url |
| Config.JoinSplit | config.h:68-83 | rejoining the four parts puts the separators back |
| Config.ParseTestUrl | config.h:185-194 | the test url parses into protocol "http", its host, port "5678" and its path |
| Config.NoPathThrows | config.h:80 | a url with no '/' after the scheme makes the path `substr` throw |
| Config.NoPortQuirk | config.h:75-80 | without a port, the host runs to the end and the port is the host name |
| Config.AuthorityWithoutPort | config.h:75-80 | the same quirk, stated on the part after "://" |
| Reply.BodyView | pdu/session_sa.h:30-130 | the body getters read only bytes from 20 on |
| Reply.SetWordView | pdu/types.h:105-115 | a header setter changes exactly its own field of the reply |
| Reply.SetByteView | pdu/session_sa.h:114-130 | the version, op-type and code-scheme stores change no header word and no string field |
| Reply.SpliceKeepsWords | pdu/session_sa.h:41-112 | the string setters change no header word and no single-byte field |
| Reply.Prepare | gateway.h:378-383 | the reply before the HTTP call keeps its 256 bytes; PrepareView states its fields and PrepareReply proves the six in-place calls produce it |
| Reply.PrepareView | gateway.h:378-383 | the prepared reply has status 0, receiver = the request's sender, version 0x20, the request's MSISDN and service code, code scheme 0x0F, and is otherwise as before; the content bytes are untouched |
| Reply.PrepareHeaderView | gateway.h:378-380 | the first three preparation steps set status, receiver and version only |
| Reply.PrepareStringsView | gateway.h:381-383 | the last three set MSISDN, service code and code scheme only |
| Reply.MsisdnView | gateway.h:381 | storing a zero-free MSISDN of at most 21 bytes changes only the MSISDN field, which then reads it back |
| Reply.ServiceCodeView | gateway.h:382 | the same for the service code |
| Reply.Fallback | gateway.h:406-423 | the error reply keeps its 256 bytes; FallbackView and FallbackBytes state its fields and bytes, and EndWith proves the in-place calls produce it |
| Reply.FallbackView | gateway.h:406-423 | an error branch makes the reply an End with op type USSN and the message as content, and keeps every other field |
| Reply.FallbackFields | gateway.h:406-423 | the error branch's field changes, and that a fitting message reads back as content |
| Reply.FallbackBytes | gateway.h:406-423 | the error branch writes the content range and nothing after it |
| Reply.ContentView | pdu/session_sa.h:104-107 | the content setter changes only the content field |
| Reply.Finish | gateway.h:425-426 | `set_command_len()` then `encode_header()` change only the 20 header bytes; FinishDecodes states the decoded fields and length word |
| Reply.FinishDecodes | gateway.h:425-426 | after `set_command_len()` and `encode_header()`, the decoded reply has every field it had before, and the length word is the buffer's `size()` |
| Reply.SmallWord | pdu/types.h:104 | a value below 2^32 is kept by the uint32 cast |
| Reply.ReplyOnFailure | gateway.h:417-423 | on request failure the decoded reply is the prepared one with command End, op type USSN and content `request_failed` (Begin) or `could_not_fetch` (Continue) |
| Reply.ReplyOnInvalid | gateway.h:406-415 | on an unparsable body or one that fails `check_json` the decoded reply is the prepared one with command End, op type USSN and content `invalid_data` |
| Reply.ReplyOnJson | gateway.h:388-399 | on a valid JSON body the decoded reply is the prepared one with the JSON's content, op type (as a byte) and command |
| Reply.ApplyJson | gateway.h:393-404 | the JSON branch keeps the 256 bytes; JsonFieldsView, ApplyJsonView and ReplyOnConversionError state what it changes, and FromJson proves the in-place calls produce it |
| Reply.JsonFieldsView | gateway.h:396-398 | the three JSON stores set content, op type and command and nothing else |
| Reply.ReplyOnConversionError | gateway.h:400-404 | when reading the content throws, the reply is the prepared one with command End and the op type and content it already had |
| Reply.ApplyJsonView | gateway.h:393-404 | whatever the JSON holds, only command, op type and content change |
| Reply.Respond | gateway.h:386-426 | the callback's branch for each outcome keeps the 256 bytes; ReplyOnFailure, ReplyOnInvalid, ReplyOnJson, ReplyAddressing and LaidOut state the reply each outcome gives |
| Reply.Replies | gateway.h:386-432 | the callback reaches `fn()` unless `check_json` throws: on a body that parses to a JSON value other than an object or null, where `isMember` throws, or on an object whose "command" member `asUInt()` cannot convert |
| Reply.ReplyAddressing | gateway.h:378-426 | on every outcome that replies, status, sender, receiver, version, MSISDN, service code and code scheme are the prepared ones |
| Reply.SizeOfLaidOut | pdu/buffer.h:308-319 | with a non-zero code scheme, zero-free content and zeros after it, `size()` is 65 + the content length and the content reads back |
| Reply.FreshReplyLength | gateway.h:425-426 | on a fresh reply with zero-free content shorter than 182 bytes, the decoded length word is 65 + the content length |
| Reply.LaidOut | gateway.h:386-426 | every replying branch leaves the content laid out that way before the length is set |
| Reply.JsonLaidOut | gateway.h:393-404 | the JSON branch leaves the content laid out |
| Reply.JsonStoredLaidOut | gateway.h:396-398 | when the content converts, it is laid out |
| Reply.JsonThrowsLaidOut | gateway.h:400-404 | when the content does not convert, the (empty) content is laid out |
| Reply.ApplyJsonTail | gateway.h:396-398 | the JSON branch's bytes from 64 on are those of the content write alone |
| Reply.TailLaidOut | gateway.h:386-426 | a content window followed by zeros, after a non-zero code scheme, is laid out |
| Reply.PrepareReply | gateway.h:378-383 | the six in-place preparation calls produce `Prepare` of the reply and the request |
| Reply.HeaderSpliceCommute | gateway.h:378-383 | a header setter and a body range write commute |
| Reply.EndWith | gateway.h:406-423 | the error branches' three calls, in either order, produce `Fallback` |
| Reply.FromJson | gateway.h:393-404 | the JSON branch's calls, with the exception handler, produce `ApplyJson` |
| Reply.Callback | gateway.h:386-432 | the callback picks the branch from the outcome, finishes the reply, and sends it exactly when `check_json` did not throw |
| Gateway.NextId | gateway.h:595 | `++id` on the signed 32-bit counter: one more, wrapping modulo 2^32 |
| Gateway.Loaded | pdu/buffer.h:124-129 | loading a message into an n-byte PDU keeps min(n, message length) bytes of it |
| Gateway.BindPdu | gateway.h:135-146 | the Bind PDU `setup_bind` leaves is 64 bytes; BindPduDecodes states its decoded fields, SetupBind proves the in-place calls produce it, BindPduIdempotent that repeating them changes nothing |
| Gateway.BindBody | gateway.h:137-139 | the three body stores keep the 64 bytes; BindBodyStored and BindBodyFrame state what they write and read |
| Gateway.SetupBind | gateway.h:135-146 | `setup_bind` leaves the Bind PDU as `BindPdu` of its old contents |
| Gateway.BindPduFrame | gateway.h:135-146 | the Bind PDU depends only on the bytes from 53 on, which `setup_bind` keeps |
| Gateway.BindBodyFrame | gateway.h:137-139 | the three string stores depend on the old bytes only from 53 on |
| Gateway.BindPduIdempotent | gateway.h:577 | running `setup_bind` again on every connect gives the same PDU |
| Gateway.BindPduDecodes | gateway.h:135-146 | the decoded Bind PDU has id 0x65, status 0, sender and receiver 0xFFFFFFFF, length 64, the configured system id and password, the configured system type cut to 13 bytes and zero-padded, and the old interface version |
| Gateway.BindHeader | gateway.h:140-145 | the five header stores keep the body |
| Gateway.BindHeaderWords | gateway.h:140-145 | the five header stores set id, status, sender, receiver and length |
| Gateway.BindBodyStored | gateway.h:137-139 | the three string stores put the configured system id, password and system type (cut to 13 bytes, zero-padded) in place and keep the interface version |
| Gateway.CredentialsStored | gateway.h:137-138 | after the system id and password stores, both read back as configured and the interface version is kept |
| Gateway.BindBodyFromTail | pdu/login.h:60-80 | system id, password, system type and interface version are read from the body alone |
| Gateway.ShakeSampleIsGeneric | gateway.h:168-180 | the Shake that `send::shake` sends is exactly a default-constructed Shake header |
| Gateway.LoadedSample | gateway.h:178 | loading the 20-byte sample into a 20-byte PDU copies it whole |
| Gateway.SampleIsShakeHeader | gateway.h:168-173 | the sample, encoded, is the generic Shake header |
| Gateway.ShakeSampleWords | gateway.h:168-173 | the sample's raw words are length 20, id Shake, status 0 and sender and receiver 0xFFFFFFFF |
| Gateway.HeaderFromWords | pdu/types.h:39-40 | two headers with the same five words have the same 20 bytes |
| Gateway.FreshReply | gateway.h:634-635 | the new reply buffer holds the sender id and zeros everywhere else |
| Gateway.InboundId | gateway.h:598-599 | the id `on_message` dispatches on is the `htobe32` of the raw word at 4..7, and for a message with a full header it is the command id `decode_header` gives |
| Gateway.BindRespEffect | gateway.h:608-622 | a BindResp reports status and length as the byte-swapped raw words of the loaded 64 bytes and the system id from their undecoded body, and sends nothing |
| Gateway.AbortEffect | gateway.h:655-661 | an Abort reports sender id and length as the byte-swapped raw words of the loaded 20 bytes, and sends nothing |
| Gateway.SessionEffect | gateway.h:636-648 | a sent reply is the whole 256-byte PDU |
| Gateway.OnBindResp | gateway.h:608-622 | a BindResp is loaded into a 64-byte PDU, decoded, and its status, length and system id are reported |
| Gateway.OnAbort | gateway.h:655-661 | an Abort is loaded into a 20-byte PDU, decoded, and its sender id and length are reported |
| Gateway.SendShake | gateway.h:176-180 | `send::shake` sends the sample loaded into a 20-byte PDU and encoded |
| Gateway.Handle | gateway.h:606-675 | the dispatch: BindResp, ShakeResp, Begin, Continue and Abort each select their own branch, and every other id selects none |
| Gateway.Step | gateway.h:593-682 | one `on_message` call keeps the counter a signed 32-bit value and sends only PDUs with a full header |
| Gateway.Run | gateway.h:606-675 | the same for each branch of the dispatch |
| Gateway.SessionResult | gateway.h:632-650 | the same for the Begin and Continue branches |
| Gateway.CounterCountsBegins | gateway.h:632-650 | the counter advances exactly on a Begin received while connected |
| Gateway.OtherMessagesIgnored | gateway.h:652-682 | End, UnBindResp, unknown ids and any message while disconnected make no request and send nothing |
| Gateway.ShakeRespAnswered | gateway.h:626-629 | a ShakeResp is answered with the generic Shake header |
| Gateway.BindRespReported | gateway.h:608-623 | a BindResp is reported with its decoded status, length and system id |
| Gateway.AbortReported | gateway.h:655-661 | an Abort is reported with its decoded sender id and length |
| Gateway.SessionStep | gateway.h:632-650 | a Begin or Continue received while connected is served by the session branch |
| Gateway.SessionRequested | gateway.h:359-385 | a Begin makes its request iff its MSISDN is whitelisted, a Continue always; the request carries the command, decoded sender id, length, MSISDN and content, and nothing is sent without a request |
| Gateway.SessionReplied | gateway.h:386-432 | a reply is sent iff a request was made and the outcome replies |
| Gateway.SessionReplyAddressed | gateway.h:632-650 | the decoded reply has status 0, sender = the new counter, receiver = the request's sender, version 0x20, the request's MSISDN and service code and code scheme 0x0F |
| Gateway.ContinueFollowsBegin | gateway.h:632-650 | a Continue after a Begin is answered with the same sender id as the Begin |
| Gateway.SessionReplyLength | gateway.h:425-426 | a sent reply's decoded length word is 65 + the length of its content |
| Gateway.Gateway.constructor | gateway.h:223-228 | a new gateway has the given settings and whitelist and counter 0 |
| Gateway.Gateway.OnConnect | gateway.h:571-591 | on connect the Bind PDU is rebuilt and sent; otherwise nothing is sent |
| Gateway.Gateway.BuildSession | gateway.h:355-434 | `build_begin`/`build_continue` yield `SessionEffect` of the fresh reply and the decoded request |
| Gateway.Gateway.OnSession | gateway.h:632-650 | the Begin and Continue cases load the message, set the sender id and build the session |
| Gateway.Gateway.OnMessage | gateway.h:593-682 | `on_message` updates the counter and has the effect `Step` describes |

## Left out

- TCP and the event loops (`setup_config`, `setup_tcp`, `run`, the reconnect in `on_connect`, `send::unbind`, `send::db_request`, `send_http_request`) are network I/O, threads and timing; `on_connect`'s connection state is a parameter.
- The 250 ms sleep in `send::shake` is timing only.
- The HTTP exchange is synchronous: its outcome is a parameter, and the callback runs before `on_message` returns. The callbacks capture locals by reference and can outlive them; that is not modelled.
- `misc::parse_json` and JsonCpp are not part of this model: a parsed object is a map from keys to the results of `asUInt`, `asString` and `asCString`, and any other parsed value is the single outcome `OkNonObject`.
- The counter `id` is a function-local `static std::atomic_int`; it is modelled as a field of the gateway, without atomicity.
- `build_whitelist` reads a file; the whitelist is a given set.
- The fmt-formatted request and log strings are not modelled: a request records only the fields `build_http_request` selects.
- Configuration loading (`config_t::parse`, `read`, `read_then_parse`, `write`) is JsonCpp and file I/O; the settings the builders read are a datatype.
- menu.h is not part of this model: it is XML-library traversal.
- fmt-5.h is not part of this model: it wraps console printing.
- `current_time`, `print_pdu`, `setup_cli`, `setup_config` and `test_login` in misc.h are clock, console and argument-parser code.
- `get_field(uchar_t, std::string&, …)` never ends (its loop condition is always true); `dynammic_buffer` copies into an empty string; `copy_array_cont` calls `begin()` on raw arrays; `get_body_str` and `get_from_header`/`get_from_body` copy without bounds. None of them is modelled.
- `switch_msg::msisdn`, `org_service_code`, `dest_service_code` and `ussd_content` (pdu/functions.h:569-594) are not modelled as free functions; the Switch fields are modelled by the methods of service_forwarding.dfy. Note that `switch_msg::ussd_content` reads from the Begin content offset 65, not the Switch content offset 84.
- Host endianness is fixed as little-endian: `htobe32` is a 4-byte reversal, and the unused `htobe32_mod` macros are not modelled.
- The `static_buffer` assignment from `std::array` and `add_octet_array` are declared but the former only appends and the latter has no body; they are covered by `AppendBytes` or not modelled.
- Gateway.Step: requires a message of at least 8 bytes, because `on_message` reads the command id at bytes 4..7 of any message and a shorter one would be read past its end.
- Gateway.Gateway.OnMessage: requires a message of at least 8 bytes, for the same reason.
- Config.ParseUrl: requires a url shorter than `npos`, which every `string_view` is.
- Reply.Callback: an exception from `check_json` (a body that is not a JSON object or null, or a "command" member that does not convert) escapes the callback; the model then sends no reply.
- Gateway.Step: states only the counter's range and the header of what is sent; what each branch sends is stated by the lemmas beside it.
- Gateway.SessionEffect: states only the length of what is sent; its content is stated by `SessionReplyAddressed`, `SessionReplyLength` and the `Reply` lemmas.

## Findings

| source | as written | input that shows it | evidently intended | confidence | as-written member | corrected member |
|---|---|---|---|---|---|---|
| pdu/service_forwading.h:145-150 | SwitchBegin `set_destination_SC` runs `assign_n` over [64, 86), which includes the code-scheme byte at 85 | a buffer with code scheme 0x0F, then a 21-byte destination code "111111111111111111111": `code_scheme()` reads 0 | the destination code's own 21 bytes, [64, 85) | high, not executed | SwitchBeginMsg.DestinationScClobbersExample | SwitchBeginMsg.DestinationScFixedKeepsCodeScheme |
| pdu/charging.h:40-45 | `set_charge_src` passes begin 39 (ChargeLocation) and end 28 (ChargeSource) to `assign_n`, an empty range | source "SP01" set on a zero buffer: bytes 28..31 stay zero | `assign_n` over [28, 39) | high, not executed | Charging.SetChargeSrcExample | Charging.SetChargeSrcFixedRoundTrip |
