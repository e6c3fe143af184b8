/** Event types and the alert row made from an event. */
module Alerts {
  import opened Prelude
  import opened Records
  import opened Text

  /** The event types the contract validation lets through. */
  predicate Admitted(eventType: string) {
    eventType == "pon.loss" || eventType == "pon.los" || eventType == "fiber.cut"
  }

  predicate IsRecovery(eventType: string) {
    || eventType == "onu.online" || eventType == "pon.up" || eventType == "olt.up"
    || eventType == "uplink.up" || eventType == "zabbix.problem.resolved"
  }

  /** The row that ingestion inserts. */
  function NewAlert(id: nat, e: Event): Alert {
    Alert(id, e.eventId, e.eventType, e.severity,
          if IsRecovery(e.eventType) then ALERT_RESOLVED else ALERT_NEW,
          e.message, Some(e.oltId), Some(PonIdentifier(e.board, e.pon)), e.onuSerial, e.metrics,
          e.timestamp, if IsRecovery(e.eventType) then Some(e.timestamp) else None)
  }

  /** Which event types are admitted and which are recoveries: no admitted event is a recovery. */
  lemma AdmittedIsNotRecovery(eventType: string)
    ensures Admitted(eventType) <==> eventType in {"pon.loss", "pon.los", "fiber.cut"}
    ensures IsRecovery(eventType)
      <==> eventType in {"onu.online", "pon.up", "olt.up", "uplink.up", "zabbix.problem.resolved"}
    ensures !(Admitted(eventType) && IsRecovery(eventType))
  {
  }

  /** Reads the event back from a stored row. */
  function EventOf(alert: Alert): Option<Event> {
    if alert.oltExternalId.None? || alert.ponIdentifier.None? then None
    else
      match ParsePonIdentifier(alert.ponIdentifier.value)
      case None => None
      case Some((board, pon)) =>
        if !AllDigits(board) || !AllDigits(pon) then None
        else
          Some(Event(alert.externalEventId, alert.eventType, alert.severity, alert.detectedAt,
                     alert.oltExternalId.value, ValueOf(board), ValueOf(pon), alert.onuSerial,
                     alert.message, alert.metrics))
  }

  /** Ingestion loses nothing: whatever became of its status, the stored row still says what the event said. */
  lemma IngestLosesNothing(id: nat, e: Event, status: AlertStatus)
    ensures EventOf(NewAlert(id, e).(status := status)) == Some(e)
  {
    PonIdentifierRoundTrip(e.board, e.pon);
    hide ParsePonIdentifier, PonIdentifier, Decimal, ValueOf, IsRecovery;
  }
}
