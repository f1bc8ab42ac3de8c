/** The lines the supervisor writes through its logger, one constructor per
    call site. The logger itself (a stream sink) is not modelled: a log is a
    sequence of these values. */
module Log {

  datatype Message =
    | InterceptedException(what: string)    // a caught std::exception and its what()
    | Restarting(attempt: nat, limit: nat)  // "restarting thread: <attempt> / <limit>"
    | SchedulingFailed                      // custom scheduling could not be configured
    | AddAfterInterrupt                     // add() called on an interrupted supervisor
    | DrainTimeout                           // threads did not terminate in time
    | DestroyedActive                        // destructor reached with active status
    | DestroyedWithThreads                   // destructor reached with threads registered
}
