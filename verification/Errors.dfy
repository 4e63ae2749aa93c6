/** The error codes of include/mb_error.h. */
module Errors {
  // the exceptions of section 7 of the Modbus application protocol, negated
  const EILLEGAL_FUNCTION := -1
  const EILLEGAL_DATA_ADDRESS := -2
  const EILLEGAL_DATA_VALUE := -3
  const ESLAVE_DEVICE_FAILURE := -4

  const ECRC_FAIL := -101
  const EFRAME_NOK := -102
  const ESLAVE_ID := -103
  const ETIMEOUT := -104
  const EUNKNOWN_EXCEPTION := -105
}
