/** The protocol errors the action code can report. All of them belong to the
    OpenFlow 1.3 error type OFPET_BAD_ACTION (section A.4.4 of the OpenFlow
    Switch Specification 1.3). */
module ActionErrors {
  datatype ActionError =
    | BadLen           // OFPBAC_BAD_LEN: a length field disagrees with the bytes available
    | BadExperimenter  // OFPBAC_BAD_EXPERIMENTER: vendor id not accepted
    | BadExpType       // OFPBAC_BAD_EXP_TYPE: vendor id accepted, sub-type unknown

  /** The `ofl_err` a routine returns: zero on success, or a protocol error. */
  datatype Status = Ok | Err(error: ActionError)
}
