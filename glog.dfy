/** The leveled log that the driver writes to. The model collects log output
    as a returned sequence of lines instead of writing it to a sink. */
module Glog {

  /** One log line and its severity. A Fatal line ends the process. */
  datatype LogLine = Info(text: string) | Warning(text: string) | Fatal(text: string)

  /** A sequence of messages logged at Info severity, in order. */
  function Infos(texts: seq<string>): (lines: seq<LogLine>)
    ensures |lines| == |texts|
    ensures forall k :: 0 <= k < |texts| ==> lines[k] == Info(texts[k])
  {
    if texts == [] then [] else [Info(texts[0])] + Infos(texts[1..])
  }
}
