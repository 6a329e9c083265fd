/**
 The upload of one file as a protocol: a dispatcher feeding a FIFO channel of parts, workers that
 pull, encode, post and retry, the shared registry entry with its mutex and condition variable, and
 the collector. One event is one atomic step of one goroutine; a run is any interleaving.
 */
module Upload {
  import opened Bytes
  import opened Crc32
  import opened Article
  import opened Parts
  import opened Wrappers

  const MAX_RETRIES := 3

  /** The upload: file content, the name put into the articles, the number of workers. */
  datatype Job = Job(data: seq<byte>, name: seq<byte>, connections: nat)

  function Total(j: Job): nat {
    PartCount(|j.data|)
  }

  function Capacity(j: Job): nat {
    2 * j.connections
  }

  datatype Phase =
    | Idle
    | Pulled(p: Part)                            // before the registry is looked at
    | Missed(p: Part)                            // Load found nothing; LoadOrStore comes next
    | Loaded(p: Part, entry: nat)                // has looked an entry up
    | Waiting(p: Part, entry: nat, woken: bool)  // in cond.Wait, mutex released
    | Folded(p: Part, crc: bv32)                 // mutex released, entry not yet deleted
    | Posting(p: Part, attempt: nat)
    | Posted(p: Part)                            // about to send on results
    | Exited

  datatype State = State(
    next: nat,                        // the next part the dispatcher reads or sends
    held: bool,                       // it has read that part and is about to send it
    queue: seq<Part>,                 // the jobs channel
    closed: bool,                     // the dispatcher has closed it
    cancelled: bool,                  // ctx is done
    failed: bool,                     // errs holds an error
    workers: seq<Phase>,
    entry: Option<nat>,               // what the registry maps the key to
    entries: seq<PartMap>,            // every entry object ever created
    articles: map<nat, seq<byte>>,    // history: what was encoded for each part
    results: seq<nat>,                // the results channel
    segments: seq<nat>,               // collected
    lost: multiset<nat>)              // history: parts given up by a worker or dropped by the collector

  /** One atomic step of a worker. */
  datatype Action =
    | Pull | Encode | Recheck | Delete
    | PostOk | PostFail | PostAuth | Send
    | QuitClosed | QuitCancelled

  datatype Event = ReadPart | Dispatch | CloseJobs | ReadError | Cancel | Collect | Work(w: nat, action: Action)

  /** Nothing dispatched yet; the registry entry, if any, is what an earlier run left behind. */
  function Start(j: Job, left: Option<PartMap>): State {
    State(1, false, [], false, false, false, seq(j.connections, i => Idle),
          if left.None? then None else Some(0), if left.None? then [] else [left.value],
          map[], [], [], multiset{})
  }

  // ------------------------------------------------------------- steps

  predicate Encoding(ph: Phase) {
    ph.Pulled? || ph.Missed? || ph.Loaded?
  }

  predicate CanAct(j: Job, s: State, ph: Phase, a: Action) {
    match a
    case Pull => ph.Idle? && s.queue != []
    case Encode => Encoding(ph) && (ph.Loaded? ==> ph.entry < |s.entries|)
    case Recheck => ph.Waiting? && ph.woken && ph.entry < |s.entries|
    case Delete => ph.Folded?
    case PostOk => ph.Posting?
    case PostFail => ph.Posting?
    case PostAuth => ph.Posting?
    case Send => ph.Posted? && |s.results| < Capacity(j)
    case QuitClosed => ph.Idle? && s.closed && s.queue == []
    case QuitCancelled => s.cancelled && (ph.Idle? || ph.Posting?)
  }

  predicate Enabled(j: Job, s: State, e: Event) {
    match e
    case ReadPart => !s.closed && !s.held && s.next <= Total(j) && !s.cancelled
    case Dispatch => !s.closed && s.held && s.next <= Total(j) && |s.queue| < Capacity(j)
    case CloseJobs => !s.closed && !s.held && (s.next > Total(j) || s.cancelled)
    case ReadError => !s.closed && !s.held && s.next <= Total(j) && !s.cancelled
    case Cancel => true
    case Collect => s.results != []
    case Work(w, a) => w < |s.workers| && CanAct(j, s, s.workers[w], a)
  }

  function Registered(parts: PartMap, p: Part): PartMap {
    parts[p.number := InfoOf(p.data)]
  }

  /** The final part, mutex held, looks at the count: fold when every part is there, else wait. */
  function Counted(p: Part, entry: nat, parts: PartMap): Phase {
    if |parts| < p.total then Waiting(p, entry, false) else Folded(p, Fold(parts, p.total))
  }

  /** The acting worker's phase afterwards. */
  function NewPhase(j: Job, s: State, ph: Phase, a: Action): Phase
    requires CanAct(j, s, ph, a)
  {
    match a
    case Pull => Pulled(s.queue[0])
    case Encode =>
      (match ph
       case Pulled(p) =>
         if p.total <= 1 then Posting(p, 1)
         else if s.entry.Some? then Loaded(p, s.entry.value)
         else Missed(p)
       case Missed(p) => Loaded(p, if s.entry.Some? then s.entry.value else |s.entries|)
       case Loaded(p, entry) =>
         if p.number == p.total then Counted(p, entry, Registered(s.entries[entry], p))
         else Posting(p, 1))
    case Recheck => Counted(ph.p, ph.entry, s.entries[ph.entry])
    case Delete => Posting(ph.p, 1)
    case PostOk => Posted(ph.p)
    case PostFail => if ph.attempt < MAX_RETRIES then Posting(ph.p, ph.attempt + 1) else Exited
    case PostAuth => Exited
    case Send => Idle
    case QuitClosed => Exited
    case QuitCancelled => Exited
  }

  predicate Wakes(ph: Phase, a: Action) {
    a.Encode? && ph.Loaded?
  }

  /** cond.Broadcast on an entry. */
  function Woken(workers: seq<Phase>, entry: nat): (ws: seq<Phase>)
    ensures |ws| == |workers|
  {
    seq(|workers|, i requires 0 <= i < |workers| =>
      if workers[i].Waiting? && workers[i].entry == entry then workers[i].(woken := true) else workers[i])
  }

  function Moved(j: Job, s: State, w: nat, a: Action): (ws: seq<Phase>)
    requires w < |s.workers| && CanAct(j, s, s.workers[w], a)
    ensures |ws| == |s.workers|
  {
    var ph := s.workers[w];
    (if Wakes(ph, a) then Woken(s.workers, ph.entry) else s.workers)[w := NewPhase(j, s, ph, a)]
  }

  function Writes(s: State, p: Part, whole: Option<bv32>): State {
    s.(articles := s.articles[p.number := Printed(p, whole)])
  }

  function GivesUp(s: State, p: Part): State {
    s.(lost := s.lost + multiset{p.number})
  }

  /** What one atomic step of yEncodeChunk does besides moving its worker. */
  function Encodes(s: State, ph: Phase): State
    requires Encoding(ph)
    requires ph.Loaded? ==> ph.entry < |s.entries|
  {
    match ph
    case Pulled(p) =>
      if p.total > 1 then s else Writes(s, p, if p.total == 1 then Some(Checksum(p.data)) else None)
    case Missed(p) =>
      if s.entry.Some? then s else s.(entries := s.entries + [map[]], entry := Some(|s.entries|))
    case Loaded(p, entry) =>
      var s1 := s.(entries := s.entries[entry := Registered(s.entries[entry], p)]);
      if p.number == p.total then s1 else Writes(s1, p, None)
  }

  /** What a worker's step does besides moving workers. */
  function Effects(j: Job, s: State, ph: Phase, a: Action): State
    requires CanAct(j, s, ph, a)
  {
    match a
    case Pull => s.(queue := s.queue[1..])
    case Encode => Encodes(s, ph)
    case Recheck => s
    case Delete => Writes(s, ph.p, Some(ph.crc)).(entry := None)
    case PostOk => s
    case PostFail => if ph.attempt < MAX_RETRIES then s else GivesUp(s, ph.p).(failed := true)
    case PostAuth => GivesUp(s, ph.p).(failed := true)
    case Send => s.(results := s.results + [ph.p.number])
    case QuitClosed => s
    case QuitCancelled => if ph.Posting? then GivesUp(s, ph.p) else s
  }

  function Act(j: Job, s: State, w: nat, a: Action): State
    requires w < |s.workers| && CanAct(j, s, s.workers[w], a)
  {
    Effects(j, s, s.workers[w], a).(workers := Moved(j, s, w, a))
  }

  function Apply(j: Job, s: State, e: Event): State
    requires Enabled(j, s, e)
  {
    match e
    case ReadPart => s.(held := true)
    case Dispatch => s.(next := s.next + 1, held := false, queue := s.queue + [NextPart(j, s)])
    case CloseJobs => s.(closed := true)
    case ReadError => s.(closed := true, failed := true)
    case Cancel => s.(cancelled := true)
    case Collect =>
      if s.cancelled then s.(results := s.results[1..], lost := s.lost + multiset{s.results[0]})
      else s.(results := s.results[1..], segments := s.segments + [s.results[0]])
    case Work(w, a) => Act(j, s, w, a)
  }

  /** The part the dispatcher cuts next; its reads fill the buffer and the file does not change. */
  function NextPart(j: Job, s: State): Part {
    if 1 <= s.next <= Total(j) then PartOf(j.data, j.name, s.next) else Part([], [], 0, 0, 0, 0)
  }

  /** The state after a run, if every event of it was possible when it happened. */
  function Run(j: Job, s: State, events: seq<Event>): Option<State>
    decreases |events|
  {
    if events == [] then Some(s)
    else if Enabled(j, s, events[0]) then Run(j, Apply(j, s, events[0]), events[1..])
    else None
  }

  predicate Finished(s: State) {
    s.results == [] && forall w :: 0 <= w < |s.workers| ==> s.workers[w].Exited?
  }

  datatype Outcome = Segments(numbers: seq<nat>) | Error

  /** What UploadToUsenet returns once the results channel is drained and closed. */
  function Returned(s: State): Outcome {
    if s.cancelled || s.failed then Error else Segments(s.segments)
  }
}
