/** The output sinks of src/main.cpp: standard output and the optional log
    file, written by `printLog`. */
module Reporting {

  /** The text written to the console and to the log file during one run. */
  class Reporter {
    var console: string
    var log: string

    constructor ()
      ensures console == [] && log == []
    {
      console, log := [], [];
    }

    /** printLog (src/main.cpp:153-157): the console always receives the
        message; the log file only when a non-null logger is passed. */
    method PrintLog(msg: string, logger: bool)
      modifies this
      ensures console == old(console) + msg
      ensures log == if logger then old(log) + msg else old(log)
    {
      console := console + msg;
      if logger {
        log := log + msg;
      }
    }
  }
}
