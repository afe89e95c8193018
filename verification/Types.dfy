/** Status codes and integer widths shared by the modules. */
module Types {
  datatype Option<+T> = None | Some(value: T)

  type u8 = n: nat | n < 0x100
  type u16 = n: nat | n < 0x1_0000
  type u32 = n: nat | n < 0x1_0000_0000

  const U32_MAX: u32 := 0xFFFF_FFFF

  /** uds_status_t, as far as the modelled functions return it. */
  datatype Status =
    | Ok
    | ErrNullPtr
    | ErrNotInitialized
    | ErrAlreadyInitialized
    | ErrInvalidParam
    | ErrBufferOverflow
    | ErrBusy
    | ErrGeneric
    | ErrPlatform
    | ErrNotFound
    | ErrDidNotFound
    | ErrNvmDataCorrupt
    | ErrConditionsNotMet
    | ErrSubFunctionNotSupported
    | ErrRequestOutOfRange
    | ErrServiceNotSupportedInSession
    | ErrSessionInvalid
    | ErrSessionTransition
    | ErrSessionTimeout
    | ErrSecAccessDenied
    | ErrSecNotUnlocked
    | ErrSecInvalidKey
    | ErrSecAttemptExceeded
    | ErrSecSeedUnavailable
    | ErrSecDelayActive
    | ErrServiceNotSupported
    | ErrResponseTooLong
    | ErrRequestSequence
    | ErrTpOverflow
    | ErrTpUnexpectedPdu
    | ErrDidReadFailed
    | ErrDidWriteFailed
    | ErrRoutineNotFound
    | ErrRoutineFailed
    | ErrRoutineNotSupportedInSession
    | ErrTransferWrongSeq
    | ErrTransferAborted
    | ErrTransferSuspended
    | ErrUploadDownloadNotAccepted
    | ErrImagePolicyAbsent
    | ErrImagePolicyRejected
}
