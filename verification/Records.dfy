/** The rows of the operational database, as far as the modelled services read or write them. */
module Records {
  import opened Prelude

  datatype Severity = INFO | WARNING | MINOR | MAJOR | CRITICAL | DISASTER {
    function Rank(): nat {
      match this
      case INFO => 0
      case WARNING => 1
      case MINOR => 2
      case MAJOR => 3
      case CRITICAL => 4
      case DISASTER => 5
    }
  }

  datatype AlertStatus = ALERT_NEW | ALERT_CORRELATED | ALERT_RESOLVED

  datatype IncidentStatus =
    | DETECTED | INVESTIGATING | CONFIRMED | IN_PROGRESS | MONITORING | RESOLVED | CLOSED | FALSE_POSITIVE

  datatype IncidentType = ONU | PON | OLT | UPLINK | NETWORK | UNKNOWN

  datatype RootCause =
    | ONU_FAILURE | ONU_POWER_FAILURE | ONU_LOS | SIGNAL_DEGRADATION | PON_FAILURE
    | OLT_FAILURE | UPLINK_FAILURE | MULTIPLE_ONU_FAILURE | UNKNOWN_CAUSE

  /** The optional `metrics` object of an event payload. */
  datatype Metrics = Metrics(onuTotal: Option<int>, onuOnline: Option<int>, onuOffline: Option<int>)

  /** An upstream event after the contract validation. */
  datatype Event = Event(
    eventId: string,
    eventType: string,
    severity: Severity,
    timestamp: int,
    oltId: string,
    board: nat,
    pon: nat,
    onuSerial: Option<string>,
    message: Option<string>,
    metrics: Option<Metrics>)

  datatype Alert = Alert(
    id: nat,
    externalEventId: string,
    eventType: string,
    severity: Severity,
    status: AlertStatus,
    message: Option<string>,
    oltExternalId: Option<string>,
    ponIdentifier: Option<string>,
    onuSerial: Option<string>,
    metrics: Option<Metrics>,
    detectedAt: int,
    resolvedAt: Option<int>)

  /** The six operational counters of an incident. */
  datatype Counters = Counters(potential: int, confirmed: int, online: int, affected: int, offlineOnus: int,
                               onlineOnus: int)

  datatype Incident = Incident(
    id: nat,
    code: string,
    title: string,
    description: Option<string>,
    incidentType: IncidentType,
    severity: Severity,
    status: IncidentStatus,
    rootCause: RootCause,
    rootCauseConfidence: int,
    oltExternalId: Option<string>,
    ponIdentifier: Option<string>,
    onuSerial: Option<string>,
    correlationKey: Option<string>,
    counters: Counters,
    detectedAt: int,
    startedAt: int,
    acknowledgedAt: Option<int>,
    resolvedAt: Option<int>,
    closedAt: Option<int>,
    durationSeconds: int)

  datatype ConnectionStatus = ONLINE | OFFLINE | UNKNOWN_CONNECTION

  /** One customer's affected/restored record under one incident. */
  datatype IncidentCustomer = IncidentCustomer(
    incidentId: nat,
    externalCustomerId: string,
    customerCode: Option<string>,
    customerName: Option<string>,
    currentStatus: ConnectionStatus,
    rxPowerDuring: Option<real>,
    rxPowerAfter: Option<real>,
    affectedFrom: Option<int>,
    restoredAt: Option<int>,
    impactDurationSeconds: int,
    confirmedAffected: bool)
}
