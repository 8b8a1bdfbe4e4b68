/** The pins every node kind is created with. */
module Defaults {
  import opened Wrappers
  import opened Types

  datatype PinConfig = PinConfig(inputCount: nat, outputCount: nat, outputNames: Option<seq<string>>)

  /** The `DEFAULT_PINS` table. */
  function DefaultPins(t: NodeType): (c: PinConfig)
    ensures c.outputNames.Some? ==> |c.outputNames.value| == c.outputCount
    ensures c.inputCount == (if t == Annotation then 0 else 1)
  {
    match t
    case DialogueContainer => PinConfig(1, 1, Some(["Exit"]))
    case FlowFragment => PinConfig(1, 1, Some(["Exit"]))
    case Line => PinConfig(1, 1, None)
    case Choice => PinConfig(1, 2, Some(["Option 1", "Option 2"]))
    case Condition => PinConfig(1, 2, Some(["True", "False"]))
    case Instruction => PinConfig(1, 1, None)
    case Jump => PinConfig(1, 0, None)
    case Hub => PinConfig(1, 1, None)
    case End => PinConfig(1, 0, None)
    case Annotation => PinConfig(0, 0, None)
  }

  /** `config.outputNames?.[i]`: the name of the `i`-th output pin, if the table gives one. */
  function OutputName(c: PinConfig, i: nat): (r: Option<string>)
    ensures r.Some? <==> c.outputNames.Some? && i < |c.outputNames.value|
  {
    match c.outputNames
    case Some(names) => if i < |names| then Some(names[i]) else None
    case None => None
  }

  /** Jump and end nodes are terminal: they get no output pins. */
  lemma TerminalKindsHaveNoOutputs(t: NodeType)
    ensures DefaultPins(t).outputCount == 0 <==> t in {Jump, End, Annotation}
  {
  }

  /** Choice and condition nodes branch: two named outputs each. */
  lemma BranchingKinds(t: NodeType)
    ensures DefaultPins(t).outputCount == 2 <==> t == Choice || t == Condition
    ensures t == Choice ==> DefaultPins(t).outputNames == Some(["Option 1", "Option 2"])
    ensures t == Condition ==> DefaultPins(t).outputNames == Some(["True", "False"])
  {
  }

  /** Container and fragment nodes get one input and a single output named `Exit`; no other kind is configured so. */
  lemma ContainerKinds(t: NodeType)
    ensures DefaultPins(t) == PinConfig(1, 1, Some(["Exit"])) <==> t == DialogueContainer || t == FlowFragment
    ensures DefaultPins(t).outputNames.Some? <==> t in {DialogueContainer, FlowFragment, Choice, Condition}
  {
  }
}
