/**
 * The entities a rule store works with: tree nodes, dynamic constraints,
 * preconditions, action directives, errors and the speech rule itself.
 */
module SpeechRules {

  /** DOM node types that speech rules apply to (W3C DOM numbering). */
  const ElementNode: nat := 1
  const TextNode: nat := 3

  /**
   * A tree node as far as the rule store sees it: an identity and its DOM node
   * type. Everything else about a node is only reached through the query
   * oracles, which take the node as an argument.
   */
  datatype Node = Node(key: nat, nodeType: nat)

  /**
   * A parsed dynamic constraint, given by its axis values in the global axis
   * order (locale, domain, style, ...): what `allProperties` hands to the trie.
   */
  datatype DynamicCstr = DynamicCstr(properties: seq<string>)

  /** A rule's precondition: the main query and the static constraints in order. */
  datatype Precondition = Precondition(query: string, constraints: seq<string>)

  /** One instruction of a rule's action program. */
  datatype ActionDirective =
    | Text(content: string)
    | Pause(parameter: string)
    | Recurse(query: string)

  /** A thrown error; the store only looks at its name. */
  datatype Error = Error(name: string, message: string)

  /** The name of the one error kind that rule definition recovers from. */
  const RuleErrorName: string := "RuleError"

  datatype Option<T> = None | Some(value: T)

  /** The outcome of a call that may throw. */
  datatype Result<T> = Ok(value: T) | Err(error: Error)

  /**
   * A speech rule. Rules never change once built, and two rules are the same
   * rule only when they are the same object, so a rule is an object with
   * constant fields and `==` on rules is reference identity.
   */
  class SpeechRule {
    const name: string
    const dynamicCstr: DynamicCstr
    const precondition: Precondition
    const action: seq<ActionDirective>

    constructor (name: string, dynamicCstr: DynamicCstr, precondition: Precondition,
                 action: seq<ActionDirective>)
      ensures this.name == name && this.dynamicCstr == dynamicCstr
      ensures this.precondition == precondition && this.action == action
    {
      this.name := name;
      this.dynamicCstr := dynamicCstr;
      this.precondition := precondition;
      this.action := action;
    }
  }
}
