/** The parsed spec document, as far as the dependency and batch validators look at it
    (tools/validate-spec/parser.go, tools/validate-spec/validate.go). */
module SpecModel {

  type Id = string

  datatype Task = Task(id: Id, files: seq<string>, depends: seq<Id>, line: int)

  datatype Batch = Batch(index: int, taskIds: seq<Id>, sharedAdditive: seq<string>, line: int)

  /** What a finding says; the source renders these fields into a sentence. */
  datatype Message =
    | CycleDetected(node: Id, dep: Id)
    | DependsOnMissing(task: Id, dep: Id)
    | NotInAnyBatch(task: Id)
    | InManyBatches(task: Id, count: nat)
    | FileOverlap(batch: int, owner: Id, task: Id, file: string)
    | NotInEarlierBatch(task: Id, taskBatch: int, dep: Id, depBatch: int)

  datatype Finding = Finding(line: int, msg: Message)
}
