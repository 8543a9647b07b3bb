/** Type identifications, causes of transmission and the pure switches over them. */
module Protocol {

  // Type identifications, section 7.2.1 of IEC 60870-5-101.
  const M_SP_NA_1 := 1
  const M_SP_TA_1 := 2
  const M_DP_NA_1 := 3
  const M_DP_TA_1 := 4
  const M_ST_NA_1 := 5
  const M_ST_TA_1 := 6
  const M_ME_NA_1 := 9
  const M_ME_TA_1 := 10
  const M_ME_NB_1 := 11
  const M_ME_TB_1 := 12
  const M_ME_NC_1 := 13
  const M_ME_TC_1 := 14
  const M_SP_TB_1 := 30
  const M_DP_TB_1 := 31
  const M_ST_TB_1 := 32
  const M_ME_TD_1 := 34
  const M_ME_TE_1 := 35
  const M_ME_TF_1 := 36
  const C_SC_NA_1 := 45
  const C_DC_NA_1 := 46
  const C_RC_NA_1 := 47
  const C_SE_NA_1 := 48
  const C_SE_NB_1 := 49
  const C_SE_NC_1 := 50
  const C_SC_TA_1 := 58
  const C_DC_TA_1 := 59
  const C_RC_TA_1 := 60
  const C_SE_TA_1 := 61
  const C_SE_TB_1 := 62
  const C_SE_TC_1 := 63

  // Causes of transmission, section 7.2.3 of IEC 60870-5-101.
  const COT_PERIODIC := 1
  const COT_BACKGROUND_SCAN := 2
  const COT_SPONTANEOUS := 3
  const COT_ACTIVATION := 6
  const COT_ACTIVATION_CON := 7
  const COT_ACTIVATION_TERMINATION := 10
  const COT_RETURN_INFO_REMOTE := 11
  const COT_RETURN_INFO_LOCAL := 12
  const COT_INTERROGATED_BY_STATION := 20
  const COT_UNKNOWN_TYPE_ID := 44
  const COT_UNKNOWN_COT := 45
  const COT_UNKNOWN_CA := 46
  const COT_UNKNOWN_IOA := 47

  // Qualifier of interrogation, section 7.2.6.22 of IEC 60870-5-101.
  const QOI_STATION := 20
  const QOI_GROUP_16 := 36

  /** The plugin's own classification of points; `Unsupported` is its number 0. */
  datatype DataType = Unsupported | SP | DP | StepPos | Normalized | Scaled | Short

  predicate IsSupportedCommandType(typeId: int) {
    typeId in {C_SC_NA_1, C_SC_TA_1, C_DC_NA_1, C_DC_TA_1, C_RC_NA_1, C_RC_TA_1,
               C_SE_NA_1, C_SE_TA_1, C_SE_NB_1, C_SE_TB_1, C_SE_NC_1, C_SE_TC_1}
  }

  predicate IsCommandWithTimestamp(typeId: int) {
    typeId in {C_SC_TA_1, C_DC_TA_1, C_RC_TA_1, C_SE_TA_1, C_SE_TB_1, C_SE_TC_1}
  }

  /** Only single, double and regulating step commands carry a select bit that the server reads. */
  predicate HasSelectBit(typeId: int) {
    typeId in {C_SC_NA_1, C_SC_TA_1, C_DC_NA_1, C_DC_TA_1, C_RC_NA_1, C_RC_TA_1}
  }

  predicate IsSupportedMonitoringType(typeId: int) {
    typeId in {M_SP_NA_1, M_SP_TA_1, M_SP_TB_1, M_DP_NA_1, M_DP_TA_1, M_DP_TB_1,
               M_ST_NA_1, M_ST_TA_1, M_ST_TB_1, M_ME_NA_1, M_ME_TA_1, M_ME_TD_1,
               M_ME_NB_1, M_ME_TB_1, M_ME_TE_1, M_ME_NC_1, M_ME_TC_1, M_ME_TF_1}
  }

  function TypeIdToDataType(typeId: int): DataType {
    if typeId in {M_SP_NA_1, M_SP_TA_1, M_SP_TB_1, C_SC_NA_1, C_SC_TA_1} then SP
    else if typeId in {M_DP_NA_1, M_DP_TA_1, M_DP_TB_1, C_DC_NA_1, C_DC_TA_1} then DP
    else if typeId in {M_ST_NA_1, M_ST_TA_1, M_ST_TB_1, C_RC_NA_1, C_RC_TA_1} then StepPos
    else if typeId in {M_ME_NA_1, M_ME_TA_1, M_ME_TD_1, C_SE_NA_1, C_SE_TA_1} then Normalized
    else if typeId in {M_ME_NB_1, M_ME_TB_1, M_ME_TE_1, C_SE_NB_1, C_SE_TB_1} then Scaled
    else if typeId in {M_ME_NC_1, M_ME_TC_1, M_ME_TF_1, C_SE_NC_1, C_SE_TC_1} then Short
    else Unsupported
  }

  /** Monitoring types a south reading may carry: no time tag, or the 56-bit one. The types with
      the 24-bit time tag can be configured but are never accepted. */
  predicate IsReadingType(typeId: int) {
    typeId in {M_SP_NA_1, M_SP_TB_1, M_DP_NA_1, M_DP_TB_1, M_ST_NA_1, M_ST_TB_1,
               M_ME_NA_1, M_ME_TD_1, M_ME_NB_1, M_ME_TE_1, M_ME_NC_1, M_ME_TF_1}
  }

  predicate HasTimeTag(typeId: int) {
    typeId in {M_SP_TB_1, M_DP_TB_1, M_ST_TB_1, M_ME_TD_1, M_ME_TE_1, M_ME_TF_1}
  }

  /** The switch that decides whether a reading fits a point. Its two tables and the one of
      `TypeIdToDataType` agree. */
  predicate IsMessageTypeMatching(dataType: DataType, typeId: int)
    ensures IsMessageTypeMatching(dataType, typeId)
       <==> IsReadingType(typeId) && TypeIdToDataType(typeId) == dataType
  {
    if typeId == M_SP_NA_1 || typeId == M_SP_TB_1 then dataType == SP
    else if typeId == M_DP_NA_1 || typeId == M_DP_TB_1 then dataType == DP
    else if typeId == M_ME_NA_1 || typeId == M_ME_TD_1 then dataType == Normalized
    else if typeId == M_ME_NB_1 || typeId == M_ME_TE_1 then dataType == Scaled
    else if typeId == M_ME_NC_1 || typeId == M_ME_TF_1 then dataType == Short
    else if typeId == M_ST_NA_1 || typeId == M_ST_TB_1 then dataType == StepPos
    else false
  }

  /** The cascade that decides whether a command fits a point. */
  predicate IsMatchingCommand(isCommand: bool, dataType: DataType, typeId: int)
    ensures IsMatchingCommand(isCommand, dataType, typeId)
       <==> isCommand && IsSupportedCommandType(typeId) && TypeIdToDataType(typeId) == dataType
  {
    isCommand &&
    match dataType
    case SP => typeId == C_SC_NA_1 || typeId == C_SC_TA_1
    case DP => typeId == C_DC_NA_1 || typeId == C_DC_TA_1
    case StepPos => typeId == C_RC_NA_1 || typeId == C_RC_TA_1
    case Normalized => typeId == C_SE_NA_1 || typeId == C_SE_TA_1
    case Scaled => typeId == C_SE_NB_1 || typeId == C_SE_TB_1
    case Short => typeId == C_SE_NC_1 || typeId == C_SE_TC_1
    case Unsupported => false
  }
}
