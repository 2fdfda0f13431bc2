/** The job counters and the queue of `struct resman_thread_pool`, as values. */
module JobQueue {
  /** `queue` is the FIFO, `qsize` and `nactive` are the counters kept beside it. */
  datatype Jobs<J> = Jobs(queue: seq<J>, qsize: int, nactive: int)

  /** The locked region of `resman_tpool_enqueue`. */
  function Enqueue<J>(s: Jobs<J>, job: J): Jobs<J> {
    s.(queue := s.queue + [job], qsize := s.qsize + 1)
  }

  /** A worker takes the first job. */
  function Take<J>(s: Jobs<J>): Jobs<J>
    requires s.queue != []
  {
    s.(queue := s.queue[1..], qsize := s.qsize - 1, nactive := s.nactive + 1)
  }

  /** A worker retires its job. */
  function Retire<J>(s: Jobs<J>): Jobs<J> {
    s.(nactive := s.nactive - 1)
  }

  /** `resman_tpool_clear` */
  function Clear<J>(s: Jobs<J>): Jobs<J> {
    s.(queue := [], qsize := 0)
  }

  const MAX_WPOOL_SIZE := 64

  /** The free pool after `free_work_item`: a full pool lets the item go. */
  function Pooled<J>(pooled: seq<J>, item: J): (r: seq<J>)
    ensures |pooled| <= MAX_WPOOL_SIZE ==> |r| <= MAX_WPOOL_SIZE
  {
    if |pooled| >= MAX_WPOOL_SIZE then pooled else [item] + pooled
  }
}
