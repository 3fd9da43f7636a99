/** The values that travel between the master, the workers and the disk. */
module Types {

  datatype Option<+T> = None | Some(value: T)

  datatype KeyValue = KeyValue(key: string, value: string)

  /** One output line: the key and what the reduce function returned for it. */
  type Line = (string, string)

  datatype TaskPhase = MapPhase | ReducePhase

  datatype Task = Task(fileName: string, nReduce: nat, nMaps: nat, seqNo: nat, phase: TaskPhase)

  /** What a file holds: an input text, encoded pairs, or output lines. */
  datatype Content = Text(text: string) | Pairs(kvs: seq<KeyValue>) | Lines(lines: seq<Line>)
}
