/** Bounds on the worker pool and the per-address cap (src/config.rs). */
module Config {
  import opened Wrappers

  const DEFAULT_WORKERS := 128
  const MAX_WORKERS := 1024

  /** A flag's argument, after the attempt to read it as a number. */
  datatype Flag = Absent | Unreadable | Number(n: nat)

  function ParseRange(raw: Flag, default: nat, min: nat, max: nat): Option<nat>
  {
    match raw
    case Absent => Some(default)
    case Unreadable => None
    case Number(n) => if min <= n <= max then Some(n) else None
  }

  function ValidateWorkers(raw: Flag): Option<nat>
  {
    ParseRange(raw, DEFAULT_WORKERS, 1, MAX_WORKERS)
  }

  function ValidateMaxConnsPerIp(raw: Flag, workers: nat): Option<nat>
  {
    var eighth := workers / 8;
    ParseRange(raw, if eighth < 1 then 1 else eighth, 1, workers + 1)
  }

  /** What is asked for within a flag's range is what is set, what is not is
      refused, and a flag that is absent sets the default: 128 workers, and an
      eighth of the workers, but at least one, for the cap. */
  lemma FlagsAsGiven(workersFlag: Flag, capFlag: Flag, workers: nat)
    ensures match workersFlag
            case Absent => ValidateWorkers(workersFlag) == Some(128)
            case Unreadable => ValidateWorkers(workersFlag) == None
            case Number(n) =>
              ValidateWorkers(workersFlag) == if n == 0 || n > 1024 then None else Some(n)
    ensures match (capFlag, ValidateMaxConnsPerIp(capFlag, workers))
            case (Absent, Some(cap)) => cap >= 1 && 8 * cap <= (if workers < 8 then 8 else workers) < 8 * (cap + 1)
            case (Unreadable, None) => true
            case (Number(n), None) => n == 0 || n > workers + 1
            case (Number(n), Some(cap)) => cap == n && 1 <= n <= workers + 1
            case _ => false
  {
  }

  /** A configuration that validates keeps the cap within `1..=workers + 1`, also
      when it is derived; and every value of that range can be asked for. */
  lemma CapInRange(workersFlag: Flag, capFlag: Flag)
    ensures var workers := ValidateWorkers(workersFlag);
            workers.Some? ==>
              && 1 <= workers.value <= MAX_WORKERS
              && var cap := ValidateMaxConnsPerIp(capFlag, workers.value);
                 && (cap.Some? ==> 1 <= cap.value <= workers.value + 1 <= 0xFFFF_FFFF)
                 && (capFlag == Absent ==> cap.Some?)
                 && (capFlag.Number? ==> (cap.Some? <==> 1 <= capFlag.n <= workers.value + 1))
  {
  }
}
