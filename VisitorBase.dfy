/**
 * The visitor base class of src/Visitor.ts. Every visitor owns a logger
 * (`_log`) and an `errors` collection. `errors` holds object literals, so
 * a `Set` of them never merges two entries: it is kept as a sequence.
 * The `options` the visitors read are passed to each `visit` instead.
 */
module VisitorBase {
  import opened Lock
  import opened Logging

  class Visitor {
    const log: Logger
    var errors: seq<PackageLockError>

    /** A visitor starts with a fresh logger and no errors. */
    constructor ()
      ensures fresh(log) && log.out == [] && log.warnings == 0 && log.errors == 0
      ensures errors == []
    {
      log := new Logger();
      errors := [];
    }
  }
}
