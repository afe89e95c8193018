/** Communication mode and DTC setting (core/uds_comm_control.c). */
module CommControl {
  import opened Types

  datatype Mode = EnableRxTx | EnableRxDisableTx | DisableRxEnableTx | DisableRxTx
  datatype Setting = On | Off

  function DecodeMode(code: u8): Option<Mode> {
    match code
    case 0 => Some(EnableRxTx)
    case 1 => Some(EnableRxDisableTx)
    case 2 => Some(DisableRxEnableTx)
    case 3 => Some(DisableRxTx)
    case _ => None
  }

  function DecodeSetting(code: u8): Option<Setting> {
    match code
    case 1 => Some(On)
    case 2 => Some(Off)
    case _ => None
  }

  datatype State = State(initialized: bool, mode: Mode, setting: Setting)

  /** Both ways open and faults recorded: how a default session must find the ECU. */
  const NORMAL := State(true, EnableRxTx, On)

  class Control {
    var initialized: bool
    var mode: Mode
    var setting: Setting
    var hasCommCallback: bool
    var hasDtcCallback: bool

    constructor ()
      ensures View() == State(false, EnableRxTx, On)
    {
      initialized, mode, setting, hasCommCallback, hasDtcCallback := false, EnableRxTx, On, false, false;
    }

    ghost function View(): State
      reads this
    {
      State(initialized, mode, setting)
    }

    /** uds_comm_control_init */
    method Init(commCallback: bool, dtcCallback: bool) returns (status: Status)
      modifies this
      ensures status == if old(initialized) then ErrAlreadyInitialized else Ok
      ensures status == Ok ==> View() == NORMAL && hasCommCallback == commCallback && hasDtcCallback == dtcCallback
      ensures status != Ok ==> View() == old(View())
    {
      if initialized {
        return ErrAlreadyInitialized;
      }
      mode, setting := EnableRxTx, On;
      hasCommCallback, hasDtcCallback := commCallback, dtcCallback;
      initialized := true;
      status := Ok;
    }

    /** uds_comm_control_apply; answer is what the platform callback returns if there is one. */
    method Apply(controlType: u8, answer: Status) returns (status: Status)
      modifies this`mode
      ensures status == Ok <==>
        initialized && DecodeMode(controlType).Some? && (hasCommCallback ==> answer == Ok)
      ensures mode == if status == Ok then DecodeMode(controlType).value else old(mode)
      ensures status == Ok ==>
        controlType <= 3 && mode == [EnableRxTx, EnableRxDisableTx, DisableRxEnableTx, DisableRxTx][controlType]
      ensures !initialized ==> status == ErrNotInitialized
      ensures initialized && DecodeMode(controlType).None? ==> status == ErrInvalidParam
      ensures initialized && DecodeMode(controlType).Some? && status != Ok ==>
        status == if answer == ErrRequestOutOfRange then ErrRequestOutOfRange else ErrConditionsNotMet
    {
      if !initialized {
        return ErrNotInitialized;
      }
      if controlType > 3 {
        return ErrInvalidParam;
      }
      if hasCommCallback {
        if answer == ErrRequestOutOfRange {
          return ErrRequestOutOfRange;
        }
        if answer != Ok {
          return ErrConditionsNotMet;
        }
      }
      mode := DecodeMode(controlType).value;
      status := Ok;
    }

    /** uds_comm_control_set_dtc_setting; answer is what the platform callback returns if there is one. */
    method SetDtcSetting(code: u8, answer: Status) returns (status: Status)
      modifies this`setting
      ensures status == Ok <==> initialized && DecodeSetting(code).Some? && (hasDtcCallback ==> answer == Ok)
      ensures setting == if status == Ok then DecodeSetting(code).value else old(setting)
      ensures status == Ok ==> (code == 1 && setting == On) || (code == 2 && setting == Off)
      ensures status != Ok ==>
        status == if !initialized then ErrNotInitialized
                  else if DecodeSetting(code).None? then ErrInvalidParam else ErrConditionsNotMet
    {
      if !initialized {
        return ErrNotInitialized;
      }
      if code != 1 && code != 2 {
        return ErrInvalidParam;
      }
      if hasDtcCallback && answer != Ok {
        return ErrConditionsNotMet;
      }
      setting := DecodeSetting(code).value;
      status := Ok;
    }

    /** uds_comm_control_restore_defaults: the callbacks' answers are ignored. */
    method RestoreDefaults() returns (status: Status)
      modifies this`mode, this`setting
      ensures status == if initialized then Ok else ErrNotInitialized
      ensures View() == if initialized then NORMAL else old(View())
    {
      if !initialized {
        return ErrNotInitialized;
      }
      mode := EnableRxTx;
      setting := On;
      status := Ok;
    }

    /** uds_comm_control_dtc_setting_is_on: without initialisation faults are not suppressed. */
    method DtcSettingIsOn() returns (on: bool)
      ensures on <==> (!initialized || setting == On)
    {
      if !initialized {
        return true;
      }
      return setting == On;
    }
  }
}
