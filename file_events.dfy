/** The event vocabulary shared by the watcher and its observers (`filesMonitor::EventType`, `filesMonitor::FileEvent`). */
module FileEvents {

  /** The four kinds of change the watcher distinguishes. */
  datatype EventType = Created | Modified | Deleted | AttribChanged

  /** One filename paired with one kind of change. */
  datatype FileEvent = FileEvent(filename: string, eventType: EventType)
}
