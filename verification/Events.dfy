/** The gateway event as the delivery chain sees it: internal/contexts/traffic/domain/types.go:16-60.
    `body` stands for the fields that delivery never touches. */
module Events {
  datatype Event = Event(eventId: string, body: string, sinkStatus: string, spoolStatus: string, retryCount: int)
}
