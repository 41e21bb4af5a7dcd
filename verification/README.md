# OpenFlow action codec core of ofsoftswitch13, in Dafny

This project models the action primitives of the OpenFlow 1.3 library
`oflib` in ofsoftswitch13, all from `oflib/ofl-actions.c`:

- **Action-list length scanner** (`ofl_utils_count_ofp_actions`). It walks
  a network-supplied buffer of action records and counts them. It reads each
  record's big-endian `len` at bytes 2..3 of the header (section A.2.5 of
  the OpenFlow Switch Specification 1.3), and rejects bad framing with
  `OFPET_BAD_ACTION / OFPBAC_BAD_LEN`. Module `ActionScan`:
  - `ScanActions` is a recursive definition.
  - `CountOfpActions` is the source's `while` loop, proved to refine it.
  - Both are tied to an independent description: a run of well-framed
    records, then a remainder (`SplitFrames`, `ScanOfRecords`, `ScanOfBadRecord`).
- **Action release** (`ofl_actions_free`). It switches on the type code.
  Module `ActionRelease`:
  - A release is a list of effects: free a heap object, hand the action to
    the experimenter callback, or log a warning.
  - Its contract is stated against an ownership model of the action. Each
    owned object is freed exactly once, and before its owner.
- **GMPLS-label experimenter codec** (`ofl_exp_msg_act_pack`, `_unpack`,
  `_free`, `_ofp_len`). Module `TlabExperimenter`:
  - The internal and wire structures are modelled field by field.
  - Wire fields are byte sequences in network order.
  - `htonl`/`ntohl` are the big-endian conversions of module `ByteOrder`.
  - Vendor validation (`ofl_validate_tlabs_experimenter`) is a parameter
    `validVendor: u32 -> bool`, because its body is not part of this model.
  - The contents of the record `malloc` returns are a parameter `block`:
    payload words the label loop does not write keep those values.

Errors are the closed set `BadLen | BadExperimenter | BadExpType` of module
`ActionErrors`. The `ofl_err` return value is `Status = Ok | Err(e)`.

Modelling choices worth knowing:

- **The remainder is accepted.** A trailing remainder shorter than 4 bytes
  is accepted silently, as the code does. `ScanOfRecords` states this.
  Rejecting a non-zero remainder would be the stricter policy; the model
  follows the code, which accepts it.
- **Experimenter release with a callback.** A release API would normally
  free the outer record after the callback. The code returns right after
  `exp->act->free(act)` without freeing it (lines 78-79), and the model
  follows the code. Combined with `ofl_exp_msg_act_free`, which frees
  nothing, the GMPLS record is never freed (`TlabReleaseFreesNothing`).
- **Layout constants.** The struct layouts are in headers that are not part
  of this model, so these values are assumptions:
  - `TLAB_WIRE_SIZE = 32`
  - `TLAB_PAYLOAD_OFFSET = 16`
  - `OFPXMT_TLAB_GMPLS_LABEL = 1`

  The round-trip lemmas depend on the declared wire size leaving exactly
  four payload words past the payload offset.

## Model

| member | source | states |
|---|---|---|
| ByteOrder.NtohsHtons | oflib/ofl-actions.c:118 | reading back a 16-bit length written with `htons` gives the same value |
| ByteOrder.HtonsNtohs | oflib/ofl-actions.c:159 | every 2-byte big-endian field is the `htons` image of the value `ntohs` reads from it |
| ByteOrder.NtohlHtonl | oflib/ofl-actions.c:164-166 | `ntohl` recovers every 32-bit word that `htonl` laid out |
| ByteOrder.HtonlNtohl | oflib/ofl-actions.c:128-130 | every 4-byte pattern is the `htonl` image of the word `ntohl` reads from it |
| ByteOrder.Be16AtIsNtohs | oflib/ofl-actions.c:98 | reading a 16-bit field in place at an offset is `ntohs` of the two bytes there |
| ActionScan.HeaderLenIsNtohs | oflib/ofl-actions.c:98 | the length the scanner checks is `ntohs(act->len)`, the big-endian value of bytes 2 and 3 of the record header |
| ActionScan.ScanCountBound | oflib/ofl-actions.c:96-105 | the number of records counted never exceeds the buffer length divided by the 4-byte minimum, whether the scan succeeds or fails |
| ActionScan.ScanAtIsScan | oflib/ofl-actions.c:96-105 | reading each header in place at a cursor and advancing the cursor by its length gives the same verdict and count as scanning the bytes from the cursor on |
| ActionScan.CountOfpActions | oflib/ofl-actions.c:87-108 | the loop returns 0 exactly when the recursive scan completes, otherwise BAD_LEN; `*count` equals the scan's count on both paths; every header read lies inside the buffer |
| ActionScan.ScanPrefixRecords | oflib/ofl-actions.c:96-105 | well-framed records in front of any buffer are each counted once and leave the verdict on the rest unchanged |
| ActionScan.ScanOfRecords | oflib/ofl-actions.c:93-107 | records that partition the buffer up to a tail shorter than 4 bytes give success with exactly their number; with no records this covers the empty and short buffers |
| ActionScan.ScanOfBadRecord | oflib/ofl-actions.c:98-100 | after any run of good records, a header whose length overruns the bytes left or is below 4 fails the scan with the good records counted |
| ActionScan.SplitFrames | oflib/ofl-actions.c:96-104 | every buffer is a run of records, each at least 4 bytes long and declaring exactly its own size, followed by a remainder that is shorter than 4 bytes or starts with a bad header |
| ActionScan.DeclaredTotalOfRecords | oflib/ofl-actions.c:102-103 | the declared lengths of well-framed records add up to the bytes they cover |
| ActionScan.ScanMeansSplit | oflib/ofl-actions.c:93-107 | the scan succeeds exactly when the remainder after the records is shorter than 4 bytes, and counts the records before it |
| ActionScan.ScanConsumesAllButTail | oflib/ofl-actions.c:96-107 | on success the declared lengths of the counted records sum to the buffer length less a remainder under 4 bytes |
| ActionScan.ScanRejectsFirstBadRecord | oflib/ofl-actions.c:98-100 | on failure the buffer is the counted records followed by a bad header, so the count is the number accepted before it |
| ActionScan.OutputThenSetField | oflib/ofl-actions.c:96-105 | a 16-byte Output record (port, max_len, padding) followed by a 16-byte SetField record counts 2 with no error |
| ActionRelease.Release | oflib/ofl-actions.c:45-85 | without a callback, exactly the owned objects are freed, once each, every owned object before its owner; the callback is used exactly for experimenter actions that have one, and then nothing is freed; the warning is logged exactly when an experimenter action has no callback |
| ActionRelease.ReleaseSetField | oflib/ofl-actions.c:48-55 | SetField frees the value buffer, then the field, then the record, each exactly once, with no warning and no callback |
| ActionRelease.ReleaseOther | oflib/ofl-actions.c:56-84 | every other standard type, and any unknown type, frees only the outer record |
| ActionRelease.ReleaseExperimenter | oflib/ofl-actions.c:73-80 | with a callback, release hands the record to it once and frees nothing itself; with `exp`, `exp->act` or `exp->act->free` missing, it warns and frees only the outer record |
| TlabExperimenter.HtonlPayload | oflib/ofl-actions.c:128-130 | each of the four payload words pack writes in network order reads back with `ntohl` as the record's word |
| TlabExperimenter.Pack | oflib/ofl-actions.c:111-137 | BAD_EXPERIMENTER when the vendor id is rejected, otherwise BAD_EXP_TYPE for any sub-type but GMPLS label; success returns the wire size, which is also the length written into the wire header |
| TlabExperimenter.PackSizeIsOfpLen | oflib/ofl-actions.c:183-187 | `ofl_exp_msg_act_ofp_len` equals the size pack returns and the length it writes |
| TlabExperimenter.LabelLen | oflib/ofl-actions.c:164 | the `size_t` subtraction stored into an `int` loses nothing for any 16-bit declared length |
| TlabExperimenter.LoopIterations | oflib/ofl-actions.c:165-166 | the label loop writes one word per started group of four bytes past the payload offset, and none when the declared length does not exceed the offset |
| TlabExperimenter.UnpackAsWritten | oflib/ofl-actions.c:139-175 | as written, the allocated record is given back on a failure exactly when the failure is BAD_EXPERIMENTER; the label loop runs past the last payload word exactly when the checks pass and the declared length exceeds the offset plus 16 |
| TlabExperimenter.Unpack | oflib/ofl-actions.c:139-175 | BAD_LEN exactly when `*len` is below the declared length, before any other check; then BAD_EXPERIMENTER; then BAD_EXP_TYPE; success leaves `*len` less exactly the declared length and keeps length, vendor id and sub-type; payload word `i` is decoded with `ntohl` exactly when it starts inside the declared length past the payload offset, so a record declaring more than 32 bytes gets all four words and none beyond `payload[3]`; the other words keep what the allocation held; never leaks |
| TlabExperimenter.UnpackAcceptsTruncatedRecord | oflib/ofl-actions.c:147-174 | the only length check is `*len` against the declared length, so a GMPLS-label record declaring length 0 with no bytes left is unpacked by the code as written and by the corrected unpack alike |
| TlabExperimenter.UnpackRefinesAsWritten | oflib/ofl-actions.c:139-175 | wherever the code as written is defined, the corrected unpack gives the same record on success and the same error on failure |
| TlabExperimenter.UnpackAsWrittenLeaksOnBadLen | oflib/ofl-actions.c:143-150 | a length failure returns without freeing the record allocated at entry |
| TlabExperimenter.UnpackAsWrittenLeaksOnBadExpType | oflib/ofl-actions.c:161-170 | an accepted vendor with an unknown sub-type returns without freeing the record allocated at entry |
| TlabExperimenter.UnpackAsWrittenOverrun | oflib/ofl-actions.c:164-166 | a declared length of 36 with 36 bytes available runs the label loop 5 times, past `payload[3]` |
| TlabExperimenter.PayloadRoundTrip | oflib/ofl-actions.c:128-130 | converting the four payload words to network order and back restores them, whatever the allocation held |
| TlabExperimenter.UnpackPack | oflib/ofl-actions.c:118-174 | unpacking what pack produced restores vendor id, sub-type and payload, with the wire size as length, and consumes exactly the wire size |
| TlabExperimenter.PackUnpack | oflib/ofl-actions.c:118-174 | packing what unpack produced from a full-size GMPLS-label action gives back the same wire structure |
| TlabExperimenter.TlabReleaseFreesNothing | oflib/ofl-actions.c:177-181 | releasing an experimenter action through this vendor's callback returns 0 and frees no object at all |

## Left out

- Logging (`OFL_LOG_WARN`, `OFL_LOG_INIT`) has no effect on results. Release
  records its warning as a `Warn` effect; the warnings of the scanner and of
  unpack are not modelled.
- `ofl_exp_msg_act_to_string` is a stub returning a null pointer, so it has
  no behaviour to specify.
- `ofl_validate_tlabs_experimenter`, `ofl_error` and `ofp_mkerr` are not part
  of this model. Vendor validation is the parameter `validVendor`. Both error
  constructors map to `ActionError`. The numeric error encoding is not
  modelled, nor pack's `int` return, which mixes sizes and error codes.
- Struct layouts, `sizeof` and `offsetof` come from headers that are not
  part of this model. They are the named constants above, and the casts
  between `ofl_*` and `ofp_*` structures are abstracted to datatypes.
- `malloc` and `free` are abstracted to resource ids and effect lists. A
  null return from `malloc` in unpack is not modelled; the source does not
  check for it.
- Pack writes the length and the vendor id into the destination before its
  checks can fail. These partial writes on the error paths are not
  modelled: a failed pack only reports its error.
- Unpack leaves the header type of the record it allocates unset. The
  model's internal record has no type field.
- TlabExperimenter.Unpack: `src` is a complete wire structure whatever its
  declared length, so the reads of the vendor id, the sub-type and
  `payload[i]` past `*len` (lines 152, 161 and 166, with no check that the
  declared length reaches the structure size) are not modelled. The
  corrected unpack keeps the rounded-up word count, so a declared length
  that ends inside a word still decodes that whole word.
  `UnpackAcceptsTruncatedRecord` shows a record declaring length 0 being
  accepted.
- CountOfpActions: `data_len` is taken to be the length of the buffer
  passed in, so it cannot claim more bytes than exist.
- The `OTN_SUPPORT` build flag is treated as always set.
- The registry's registration interface, and what other vendors' release
  callbacks do, are outside this file. A callback appears only as an
  `Invoke` effect.

## Findings

| source | as written | input that shows it | evidently intended | confidence | as-written member | corrected member |
|---|---|---|---|---|---|---|
| oflib/ofl-actions.c:143-170 | unpack allocates its result before the length check. It frees it only when the vendor id is rejected; the BAD_LEN and BAD_EXP_TYPE returns leak it | `*len` smaller than the declared length; or an accepted vendor with a sub-type other than GMPLS label | free the allocation on every error return | high (not executed) | TlabExperimenter.UnpackAsWrittenLeaksOnBadLen | TlabExperimenter.Unpack |
| oflib/ofl-actions.c:164-166 | the label loop runs while `label_len > 0` with no bound on `i`, so a declared length beyond the payload offset plus 16 writes `payload[4]` and beyond | GMPLS-label action declaring length 36 with 36 bytes available and an accepted vendor: five iterations | stop at the fourth payload word | high (not executed) | TlabExperimenter.UnpackAsWrittenOverrun | TlabExperimenter.Unpack |

`TlabExperimenter.UnpackAsWrittenLeaksOnBadExpType` shows the second leaking
path of the first row. `TlabExperimenter.UnpackRefinesAsWritten` shows that
the corrected unpack agrees with the code wherever the code is defined.
