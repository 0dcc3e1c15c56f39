/**
  `make_map_fn` and its inner `process_fn` in scripts/data/deepscaler_dataset.py: a math problem
  record is turned into a prompt record for training, and the problem and answer are popped
  from the caller's example. The per-split loops of the script are modelled as one loop over a
  sequence of examples.
 */
module Deepscaler {
  import opened Wrappers
  import opened PyValues

  /** The instruction appended when none is given. */
  const DefaultInstruction: string := "Let's think step by step and output the final answer within \\boxed{}."

  /** One chat message of the prompt. */
  datatype Message = Message(role: string, content: string)

  /** `{"style": ..., "ground_truth": ...}`. */
  datatype RewardModel = RewardModel(style: string, groundTruth: PyValue)

  /** `{"question": ..., "ground_truth": ...}`. */
  datatype Task = Task(question: PyValue, groundTruth: PyValue)

  /** `{"split": ..., "index": ..., "task": ...}`. */
  datatype ExtraInfo = ExtraInfo(split: string, index: int, task: Task)

  /** The dict `process_fn` returns. */
  datatype Record = Record(
    dataSource: string,
    prompt: seq<Message>,
    ability: string,
    rewardModel: RewardModel,
    extraInfo: ExtraInfo,
    task: Task,
    uid: int)

  /** A dataset example: a dict from field names to values, which `process_fn` changes in place. */
  class Example {
    var fields: map<string, PyValue>

    constructor(fields: map<string, PyValue>)
      ensures this.fields == fields
    {
      this.fields := fields;
    }
  }

  /** The instruction used: the one given, or the default. */
  function InstructionOr(instruction: Option<string>): string
  {
    match instruction
    case None => DefaultInstruction
    case Some(s) => s
  }

  /** The dict literal at lines 53-65; `str()` of a question that is not a plain value is given by `other`. */
  function MakeRecord(split: string, question: PyValue, answer: PyValue, idx: int, instruction: string,
                      other: PyValue -> string): Record
  {
    Record(
      "",
      [Message("user", StrOf(question, other) + " " + instruction)],
      "math",
      RewardModel("rule", answer),
      ExtraInfo(split, idx, Task(question, answer)),
      Task(question, answer),
      idx)
  }

  /** The record `process_fn` returns for an example with these fields; `None` when a `pop` raises `KeyError`. */
  function RecordOf(split: string, fields: map<string, PyValue>, idx: int, instruction: Option<string>,
                    other: PyValue -> string): Option<Record>
  {
    if "problem" in fields && "answer" in fields
    then Some(MakeRecord(split, fields["problem"], fields["answer"], idx, InstructionOr(instruction), other))
    else None
  }

  /**
    `make_map_fn(split)(example, idx, instruction)`: pops `"problem"`, then `"answer"`, and
    builds the record; `None` when a `pop` raises, with the pops done so far left in place.
   */
  method ProcessFn(split: string, example: Example, idx: int, instruction: Option<string>, other: PyValue -> string)
    returns (r: Option<Record>)
    modifies example
    ensures r == RecordOf(split, old(example.fields), idx, instruction, other)
    ensures "problem" !in old(example.fields) ==> example.fields == old(example.fields)
    ensures "problem" in old(example.fields) ==> example.fields == old(example.fields) - {"problem", "answer"}
  {
    if "problem" !in example.fields {
      return None;
    }
    var question := example.fields["problem"];
    example.fields := example.fields - {"problem"};
    var instr := if instruction.None? then DefaultInstruction else instruction.value;
    if "answer" !in example.fields {
      return None;
    }
    var answer := example.fields["answer"];
    example.fields := example.fields - {"answer"};
    r := Some(MakeRecord(split, question, answer, idx, instr, other));
  }

  // ---------------------------------------------------------------------------------------
  // Properties of one record

  /** The prompt is one user message: the question, a space, then the instruction (the default one when none is given). */
  lemma PromptIsQuestionAndInstruction(split: string, fields: map<string, PyValue>, idx: int, instruction: Option<string>,
                                       other: PyValue -> string)
    requires RecordOf(split, fields, idx, instruction, other).Some?
    ensures var r := RecordOf(split, fields, idx, instruction, other).value;
            |r.prompt| == 1 && r.prompt[0].role == "user"
            && r.prompt[0].content == StrOf(fields["problem"], other) + " " + InstructionOr(instruction)
    ensures instruction.None? ==>
              RecordOf(split, fields, idx, instruction, other).value.prompt[0].content
              == StrOf(fields["problem"], other) + " " + DefaultInstruction
  {
  }

  /** The answer is the ground truth in all three places, and the question is kept in both tasks. */
  lemma AnswerAndQuestionKept(split: string, fields: map<string, PyValue>, idx: int, instruction: Option<string>,
                              other: PyValue -> string)
    requires RecordOf(split, fields, idx, instruction, other).Some?
    ensures var r := RecordOf(split, fields, idx, instruction, other).value;
            r.rewardModel.groundTruth == fields["answer"]
            && r.extraInfo.task.groundTruth == fields["answer"]
            && r.task.groundTruth == fields["answer"]
            && r.extraInfo.task.question == fields["problem"]
            && r.task.question == fields["problem"]
  {
  }

  /** `uid` and `extra_info.index` are the index given, and `extra_info.split` is the split. */
  lemma IdentifiersKept(split: string, fields: map<string, PyValue>, idx: int, instruction: Option<string>,
                        other: PyValue -> string)
    requires RecordOf(split, fields, idx, instruction, other).Some?
    ensures var r := RecordOf(split, fields, idx, instruction, other).value;
            r.uid == idx && r.extraInfo.index == idx && r.extraInfo.split == split
  {
  }

  /** A record comes back exactly when the example has both a `"problem"` and an `"answer"` field. */
  lemma RecordExactlyWithBothFields(split: string, fields: map<string, PyValue>, idx: int, instruction: Option<string>,
                                    other: PyValue -> string)
    ensures RecordOf(split, fields, idx, instruction, other).Some? <==> "problem" in fields && "answer" in fields
  {
  }

  /** Popping the two fields leaves every other field of the example as it was. */
  lemma OtherFieldsKept(fields: map<string, PyValue>, k: string)
    requires k != "problem" && k != "answer"
    ensures k in fields - {"problem", "answer"} <==> k in fields
    ensures k in fields ==> (fields - {"problem", "answer"})[k] == fields[k]
  {
  }

  // ---------------------------------------------------------------------------------------
  // The per-split loops

  /** An example `process_fn` accepts: both fields are there to pop. */
  predicate Complete(fields: map<string, PyValue>) {
    "problem" in fields && "answer" in fields
  }

  /**
    What the loop over a split collects: when every example is complete, one record per
    example, in order, record `i` built with index `i` and the default instruction; `None` when
    `process_fn` raises on some example.
   */
  function SplitRecords(split: string, examples: seq<map<string, PyValue>>, other: PyValue -> string)
    : Option<seq<Record>>
  {
    if forall i :: 0 <= i < |examples| ==> Complete(examples[i])
    then Some(seq(|examples|, i requires 0 <= i < |examples| && Complete(examples[i]) =>
                RecordOf(split, examples[i], i, None, other).value))
    else None
  }

  /** `process_fn(example, idx)` with no instruction, on a fresh example object holding `fields`. */
  method ProcessFresh(split: string, fields: map<string, PyValue>, idx: int, other: PyValue -> string)
    returns (r: Option<Record>)
    ensures r == RecordOf(split, fields, idx, None, other)
  {
    var example := new Example(fields);
    r := ProcessFn(split, example, idx, None, other);
  }

  /**
    Lines 91-96 (and 100-105 for each test set): `process_fn` on each example with its index and
    no instruction, keeping every result that is not `None`. Each example is a fresh object.
   */
  method ProcessSplit(split: string, examples: seq<map<string, PyValue>>, other: PyValue -> string)
    returns (data: Option<seq<Record>>)
    ensures data == SplitRecords(split, examples, other)
  {
    var acc: seq<Record> := [];
    var idx := 0;
    while idx < |examples|
      invariant 0 <= idx <= |examples| && |acc| == idx
      invariant forall i :: 0 <= i < idx ==> Complete(examples[i])
      invariant forall i :: 0 <= i < idx ==> RecordOf(split, examples[i], i, None, other) == Some(acc[i])
      decreases |examples| - idx
    {
      var processedExample := ProcessFresh(split, examples[idx], idx, other);
      if processedExample.None? {
        assert !Complete(examples[idx]);
        assert SplitRecords(split, examples, other).None?;
        return None;
      }
      acc := acc + [processedExample.value];
      idx := idx + 1;
    }
    SplitRecordsOf(split, examples, other, acc);
    data := Some(acc);
  }

  /** Records built one per complete example, with its index, are what `SplitRecords` collects. */
  lemma SplitRecordsOf(split: string, examples: seq<map<string, PyValue>>, other: PyValue -> string, acc: seq<Record>)
    requires |acc| == |examples| && forall i :: 0 <= i < |examples| ==> Complete(examples[i])
    requires forall i :: 0 <= i < |examples| ==> RecordOf(split, examples[i], i, None, other) == Some(acc[i])
    ensures SplitRecords(split, examples, other) == Some(acc)
  {
    var records := SplitRecords(split, examples, other).value;
    assert |records| == |acc| && forall i :: 0 <= i < |acc| ==> records[i] == acc[i];
    assert records == acc;
  }

  /**
    `process_fn` never returns `None`: the loop keeps one record per example exactly when every
    example is complete, record `i` being what `process_fn` gives for example `i` and index `i`.
   */
  lemma SplitRecordsInOrder(split: string, examples: seq<map<string, PyValue>>, other: PyValue -> string)
    ensures SplitRecords(split, examples, other).Some? <==> forall i :: 0 <= i < |examples| ==> Complete(examples[i])
    ensures SplitRecords(split, examples, other).Some? ==>
              |SplitRecords(split, examples, other).value| == |examples|
              && forall i :: 0 <= i < |examples| ==>
                   RecordOf(split, examples[i], i, None, other) == Some(SplitRecords(split, examples, other).value[i])
  {
  }
}
