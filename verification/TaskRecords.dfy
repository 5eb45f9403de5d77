/** Task records and the key-value storage that holds them. */
module TaskRecords {
  import opened Options

  /** UUIDs are opaque; the generator never repeats one. */
  type Uuid = nat

  datatype Status = QUEUED | RUNNING | SUCCEEDED | FAILED | CANCELED

  datatype State = Queued | Running | Completed

  datatype Task = Task(uuid: Uuid, status: Status, reason: string, created: int, modified: int)

  const INVALIDATED: string := "the task canceled due to restart of the plugin"

  predicate IsCompleted(status: Status) {
    status == SUCCEEDED || status == FAILED || status == CANCELED
  }

  function StateOf(status: Status): State {
    match status
    case QUEUED => Queued
    case RUNNING => Running
    case SUCCEEDED => Completed
    case FAILED => Completed
    case CANCELED => Completed
  }

  /** One map for each storage prefix. */
  datatype Store = Store(queued: map<Uuid, Task>, running: map<Uuid, Task>, completed: map<Uuid, Task>, logs: map<Uuid, string>)
  {
    function Of(state: State): map<Uuid, Task> {
      match state
      case Queued => queued
      case Running => running
      case Completed => completed
    }

    function Get(state: State, uuid: Uuid): Option<Task> {
      if uuid in Of(state) then Some(Of(state)[uuid]) else None
    }

    function Put(state: State, uuid: Uuid, task: Task): Store {
      match state
      case Queued => this.(queued := queued[uuid := task])
      case Running => this.(running := running[uuid := task])
      case Completed => this.(completed := completed[uuid := task])
    }

    function Delete(state: State, uuid: Uuid): Store {
      match state
      case Queued => this.(queued := queued - {uuid})
      case Running => this.(running := running - {uuid})
      case Completed => this.(completed := completed - {uuid})
    }

    function PutLog(uuid: Uuid, log: string): Store {
      this.(logs := logs[uuid := log])
    }

    function DeleteLog(uuid: Uuid): Store {
      this.(logs := logs - {uuid})
    }

    predicate Has(uuid: Uuid) {
      uuid in queued || uuid in running || uuid in completed
    }

    /** Every record lies under its own key, in the state its status belongs to. */
    ghost predicate Filed() {
      && (forall u :: u in queued ==> queued[u].uuid == u && queued[u].status == QUEUED)
      && (forall u :: u in running ==> running[u].uuid == u && running[u].status == RUNNING)
      && (forall u :: u in completed ==> completed[u].uuid == u && IsCompleted(completed[u].status))
    }
  }

  const EMPTY: Store := Store(map[], map[], map[], map[])
}
