/** The two database guards: validating every call (example/pgx/guarded.go), and validating through
    a cache of prepared values (example/pgx-prepared/guarded.go). */
module Guard {
  import opened Common
  import opened World
  import opened Engine
  import opened Cache

  datatype Request = Request(operation: Operation, ctx: Context, sql: string, arguments: seq<Argument>)

  /** A refused or denied call never reaches the database; for QueryRow the failure is what the
      returned row's Scan reports. */
  datatype Reply = Refused | Denied(error: Error) | Responded(response: nat)

  datatype Limits = Limits(capacity: nat, maxSQLBytes: nat)

  ghost predicate Rewrites(arguments: seq<Argument>) {
    exists i :: 0 <= i < |arguments| && arguments[i].rewritesQuery
  }

  method ContainsQueryRewriter(arguments: seq<Argument>) returns (found: bool)
    ensures found <==> Rewrites(arguments)
  {
    for i := 0 to |arguments|
      invariant forall j :: 0 <= j < i ==> !arguments[j].rewritesQuery
    {
      if arguments[i].rewritesQuery {
        return true;
      }
    }
    return false;
  }

  predicate Cacheable(error: Option<Error>) {
    error.None? || error.value.Violation?
  }

  /* ----- the behaviour ----- */

  function Begun(t: Trace, r: Request): Trace {
    t + [Began(r.operation, r.ctx, r.sql, r.arguments)]
  }

  /** A call whose validation has ended goes on to the database exactly if it succeeded. */
  function Delegated(adv: Adversary, run: Run, r: Request): (Trace, Reply) {
    if run.error.Some? then (run.trace, Denied(run.error.value))
    else
      var response := adv.execute(run.trace, r.operation, r.ctx, r.sql, r.arguments);
      (run.trace + [Executed(r.operation, r.ctx, r.sql, r.arguments, response)], Responded(response))
  }

  ghost function PlainCall(adv: Adversary, cfg: Config, t: Trace, r: Request): (Trace, Reply) {
    if Rewrites(r.arguments) then (Begun(t, r), Refused)
    else Delegated(adv, DirectRun(adv, cfg, Begun(t, r), r.ctx, r.sql), r)
  }

  function CachedRun(adv: Adversary, cfg: Config, limits: Limits, t: Trace, entries: Entries, ctx: Context, sql: string): (Run, Entries) {
    match Find(entries, sql)
    case Some(prepared) => (ValidateRun(adv, cfg, t, ctx, prepared), Looked(entries, sql))
    case None =>
      var (mid, preparation) := PrepareRun(adv, cfg, t, ctx, sql);
      match preparation
      case Unprepared(error) => (Run(mid, Some(error)), entries)
      case Ready(prepared) =>
        var run := ValidateRun(adv, cfg, mid, ctx, prepared);
        (run, if |sql| <= limits.maxSQLBytes && Cacheable(run.error)
              then Inserted(entries, sql, prepared, limits.capacity) else entries)
  }

  ghost function CachedCall(adv: Adversary, cfg: Config, limits: Limits, t: Trace, entries: Entries, r: Request): (Trace, Entries, Reply) {
    if Rewrites(r.arguments) then (Begun(t, r), entries, Refused)
    else
      var (run, after) := CachedRun(adv, cfg, limits, Begun(t, r), entries, r.ctx, r.sql);
      var (end, reply) := Delegated(adv, run, r);
      (end, after, reply)
  }

  /* ----- the guards ----- */

  class PlainDB {
    const validator: Validator

    constructor (validator: Validator)
      ensures this.validator == validator
    {
      this.validator := validator;
    }

    method Exec(world: Environment, ctx: Context, sql: string, arguments: seq<Argument>) returns (reply: Reply)
      modifies world
      ensures (world.trace, reply) == PlainCall(world.adversary, validator.config, old(world.trace), Request(Operation.Exec, ctx, sql, arguments))
    {
      reply := Guarded(world, Operation.Exec, ctx, sql, arguments);
    }

    method Query(world: Environment, ctx: Context, sql: string, arguments: seq<Argument>) returns (reply: Reply)
      modifies world
      ensures (world.trace, reply) == PlainCall(world.adversary, validator.config, old(world.trace), Request(Operation.Query, ctx, sql, arguments))
    {
      reply := Guarded(world, Operation.Query, ctx, sql, arguments);
    }

    method QueryRow(world: Environment, ctx: Context, sql: string, arguments: seq<Argument>) returns (reply: Reply)
      modifies world
      ensures (world.trace, reply) == PlainCall(world.adversary, validator.config, old(world.trace), Request(Operation.QueryRow, ctx, sql, arguments))
    {
      reply := Guarded(world, Operation.QueryRow, ctx, sql, arguments);
    }

    /** The body the three operations share. */
    method Guarded(world: Environment, operation: Operation, ctx: Context, sql: string, arguments: seq<Argument>) returns (reply: Reply)
      modifies world
      ensures (world.trace, reply) == PlainCall(world.adversary, validator.config, old(world.trace), Request(operation, ctx, sql, arguments))
    {
      world.Begin(operation, ctx, sql, arguments);
      var rewrites := ContainsQueryRewriter(arguments);
      if rewrites {
        return Refused;
      }
      var error := validator.Validate(world, ctx, sql);
      if error.Some? {
        return Denied(error.value);
      }
      var response := world.Execute(operation, ctx, sql, arguments);
      return Responded(response);
    }
  }

  class CachedDB {
    const validator: Validator
    const cache: Lru
    const maxSQLBytes: nat

    ghost predicate Valid()
      reads this, cache
    {
      cache.Valid()
    }

    ghost function Limited(): Limits {
      Limits(cache.capacity, maxSQLBytes)
    }

    constructor (validator: Validator, limits: Limits)
      requires 0 < limits.capacity
      ensures Valid() && fresh(cache) && cache.entries == []
      ensures this.validator == validator && Limited() == limits
    {
      this.validator := validator;
      cache := new Lru(limits.capacity);
      maxSQLBytes := limits.maxSQLBytes;
    }

    method Exec(world: Environment, ctx: Context, sql: string, arguments: seq<Argument>) returns (reply: Reply)
      requires Valid()
      modifies world, cache`entries
      ensures Valid()
      ensures (world.trace, cache.entries, reply) ==
              CachedCall(world.adversary, validator.config, Limited(), old(world.trace), old(cache.entries), Request(Operation.Exec, ctx, sql, arguments))
    {
      reply := Guarded(world, Operation.Exec, ctx, sql, arguments);
    }

    method Query(world: Environment, ctx: Context, sql: string, arguments: seq<Argument>) returns (reply: Reply)
      requires Valid()
      modifies world, cache`entries
      ensures Valid()
      ensures (world.trace, cache.entries, reply) ==
              CachedCall(world.adversary, validator.config, Limited(), old(world.trace), old(cache.entries), Request(Operation.Query, ctx, sql, arguments))
    {
      reply := Guarded(world, Operation.Query, ctx, sql, arguments);
    }

    method QueryRow(world: Environment, ctx: Context, sql: string, arguments: seq<Argument>) returns (reply: Reply)
      requires Valid()
      modifies world, cache`entries
      ensures Valid()
      ensures (world.trace, cache.entries, reply) ==
              CachedCall(world.adversary, validator.config, Limited(), old(world.trace), old(cache.entries), Request(Operation.QueryRow, ctx, sql, arguments))
    {
      reply := Guarded(world, Operation.QueryRow, ctx, sql, arguments);
    }

    /** The body the three operations share. */
    method Guarded(world: Environment, operation: Operation, ctx: Context, sql: string, arguments: seq<Argument>) returns (reply: Reply)
      requires Valid()
      modifies world, cache`entries
      ensures Valid()
      ensures (world.trace, cache.entries, reply) ==
              CachedCall(world.adversary, validator.config, Limited(), old(world.trace), old(cache.entries), Request(operation, ctx, sql, arguments))
    {
      world.Begin(operation, ctx, sql, arguments);
      var rewrites := ContainsQueryRewriter(arguments);
      if rewrites {
        return Refused;
      }
      var error := Validate(world, ctx, sql);
      if error.Some? {
        return Denied(error.value);
      }
      var response := world.Execute(operation, ctx, sql, arguments);
      return Responded(response);
    }

    method Validate(world: Environment, ctx: Context, sql: string) returns (error: Option<Error>)
      requires Valid()
      modifies world, cache`entries
      ensures Valid()
      ensures (Run(world.trace, error), cache.entries) ==
              CachedRun(world.adversary, validator.config, Limited(), old(world.trace), old(cache.entries), ctx, sql)
    {
      var found := cache.Get(sql);
      if found.Some? {
        error := validator.ValidatePrepared(world, ctx, found.value);
        return;
      }
      var preparation := validator.Prepare(world, ctx, sql);
      match preparation {
        case Unprepared(failure) =>
          return Some(failure);
        case Ready(prepared) =>
          error := validator.ValidatePrepared(world, ctx, prepared);
          if |sql| <= maxSQLBytes && Cacheable(error) {
            cache.Add(sql, prepared);
          }
      }
    }
  }

  datatype ConstructionError = NilValidator | NilExecutor | InvalidCapacity | InvalidMaxSQLBytes

  /** The first unusable collaborator or limit decides the failure. */
  method NewCachedDB(validator: Validator?, hasExecutor: bool, capacity: int, maxSQLBytes: int) returns (db: CachedDB?, failure: Option<ConstructionError>)
    ensures db != null <==> validator != null && hasExecutor && capacity > 0 && maxSQLBytes > 0
    ensures failure == if validator == null then Some(NilValidator)
                       else if !hasExecutor then Some(NilExecutor)
                       else if capacity <= 0 then Some(InvalidCapacity)
                       else if maxSQLBytes <= 0 then Some(InvalidMaxSQLBytes)
                       else None
    ensures db != null ==> fresh(db) && fresh(db.cache) && db.Valid() && db.cache.entries == []
                           && db.validator == validator && db.Limited() == Limits(capacity, maxSQLBytes)
  {
    if validator == null {
      return null, Some(NilValidator);
    }
    if !hasExecutor {
      return null, Some(NilExecutor);
    }
    if capacity <= 0 {
      return null, Some(InvalidCapacity);
    }
    if maxSQLBytes <= 0 {
      return null, Some(InvalidMaxSQLBytes);
    }
    db := new CachedDB(validator, Limits(capacity, maxSQLBytes));
    failure := None;
  }
}
