/** The entities of internal/goaltasks/types.go and the ancestry size cap. */
module TaskTypes {
  import opened Common
  import opened Text

  /** The eight values the status column accepts; any other text is `Unknown`. */
  datatype Status =
    | Proposed | Approved | Claimed | InProgress | AwaitingVerification
    | Done | Failed | Cancelled
    | Unknown(text: string)

  predicate Terminal(s: Status) {
    s.Done? || s.Failed? || s.Cancelled?
  }

  datatype AncestryNode = AncestryNode(id: nat, title: string, criteria: string)

  datatype VerifierConfig = VerifierConfig(kind: string, agentId: int, cmd: string, cwd: string, timeoutSec: int)

  datatype HeartbeatConfig = HeartbeatConfig(source: string, intervalSec: int)

  /** The recursive task specification handed to CreateTree. */
  datatype TreeNode = TreeNode(
    title: string,
    description: string,
    criteria: string,
    billing: string,
    budgetTokens: Option<int>,
    budgetCents: Option<int>,
    verifier: Option<VerifierConfig>,
    heartbeat: Option<HeartbeatConfig>,
    children: seq<TreeNode>)

  /** One row of the goal_tasks table, keyed by id in a `Table`. */
  datatype Task = Task(
    goalId: nat,
    parent: Option<nat>,
    ancestry: seq<AncestryNode>,
    depth: nat,
    title: string,
    description: string,
    criteria: string,
    byAgent: Option<nat>,
    byUser: Option<nat>,
    assignee: Option<nat>,
    status: Status,
    billing: Option<string>,
    budgetTokens: Option<int>,
    budgetCents: Option<int>,
    spentTokens: int,
    spentCents: int,
    heartbeat: Option<HeartbeatConfig>,
    verifier: Option<VerifierConfig>,
    claimMessage: Option<nat>,
    completionMessage: Option<nat>,
    failureReason: Option<string>,
    claimedAt: Option<int>,
    startedAt: Option<int>,
    completedAt: Option<int>)

  type Table = map<nat, Task>

  datatype CreateTreeInput = CreateTreeInput(
    goalId: nat,
    byAgent: Option<nat>,
    byUser: Option<nat>,
    root: TreeNode,
    initialStatus: Option<Status>,
    defaultBilling: string)

  datatype Extras = Extras(failureReason: string, completionMessage: Option<nat>)

  datatype TaskError = TaskNotFound | AlreadyClaimed | IllegalTransition | AncestryOverflow | DatabaseError

  /** An empty string is written as NULL. */
  function NullableString(s: string): (r: Option<string>)
    ensures r != Some("")
  {
    if s == "" then None else Some(s)
  }

  const MAX_ANCESTRY_BYTES: nat := 16 * 1024

  /** Bytes encoding/json spends on one character of a string value. */
  function JsonCharBytes(c: char): nat {
    var u := c as int;
    if c == '"' || c == '\\' || u == 8 || u == 9 || u == 10 || u == 12 || u == 13 then 2
    else if u < 0x20 || c == '<' || c == '>' || c == '&' || u == 0x2028 || u == 0x2029 then 6
    else if u < 0x80 then 1
    else if u < 0x800 then 2
    else if u < 0x10000 then 3
    else 4
  }

  function JsonTextBytes(s: string): nat {
    if s == "" then 0 else JsonCharBytes(s[0]) + JsonTextBytes(s[1..])
  }

  /** One object of the chain; acceptance_criteria is dropped when it is empty. */
  function NodeBytes(a: AncestryNode): nat {
    6 + DigitCount(a.id) + 9 + 2 + JsonTextBytes(a.title)
    + (if a.criteria == "" then 0 else 23 + 2 + JsonTextBytes(a.criteria)) + 1
  }

  function NodesBytes(nodes: seq<AncestryNode>): nat {
    if nodes == [] then 0 else NodesBytes(nodes[..|nodes| - 1]) + NodeBytes(nodes[|nodes| - 1])
  }

  /** Length of the stored chain. A root's nil chain is written as `null`. */
  function AncestryBytes(nodes: seq<AncestryNode>): nat {
    if nodes == [] then 4 else 2 + NodesBytes(nodes) + (|nodes| - 1)
  }

  // ------------------------------------------------------- the stored text

  /** One character of a string value as encoding/json writes it. */
  function JsonChar(c: char): string {
    var u := c as int;
    if c == '"' then "\\\""
    else if c == '\\' then "\\\\"
    else if u == 8 then "\\b"
    else if u == 9 then "\\t"
    else if u == 10 then "\\n"
    else if u == 12 then "\\f"
    else if u == 13 then "\\r"
    else if u < 0x20 || c == '<' || c == '>' || c == '&' || u == 0x2028 || u == 0x2029 then "\\u" + Hex(u, 4)
    else [c]
  }

  function JsonChars(s: string): string {
    if s == "" then "" else JsonChar(s[0]) + JsonChars(s[1..])
  }

  function JsonString(s: string): string {
    "\"" + JsonChars(s) + "\""
  }

  const CRITERIA_KEY := ",\"acceptance_criteria\":"

  function CriteriaText(criteria: string): string {
    if criteria == "" then "" else CRITERIA_KEY + JsonString(criteria)
  }

  function NodeText(a: AncestryNode): string {
    "{\"id\":" + Decimal(a.id) + (",\"title\":" + JsonString(a.title)) + CriteriaText(a.criteria) + "}"
  }

  function NodesText(nodes: seq<AncestryNode>): string {
    if nodes == [] then ""
    else if |nodes| == 1 then NodeText(nodes[0])
    else NodesText(nodes[..|nodes| - 1]) + "," + NodeText(nodes[|nodes| - 1])
  }

  /** The text in the ancestry column. */
  function AncestryText(nodes: seq<AncestryNode>): string {
    if nodes == [] then "null" else "[" + NodesText(nodes) + "]"
  }

  lemma JsonCharSize(c: char)
    ensures Utf8Bytes(JsonChar(c)) == JsonCharBytes(c)
  {
    var u, j := c as int, JsonChar(c);
    if u < 0x20 || c == '<' || c == '>' || c == '&' || u == 0x2028 || u == 0x2029 {
      PowersOf16();
      HexReads(u, 4);
      HexAscii(u, 4);
    }
    if |j| > 1 {
      AsciiBytes(j);
    } else {
      assert j == [c] && j[1..] == "";
    }
  }

  lemma {:induction false} JsonTextSize(s: string)
    ensures Utf8Bytes(JsonChars(s)) == JsonTextBytes(s)
    decreases |s|
  {
    if s != "" {
      JsonCharSize(s[0]);
      JsonTextSize(s[1..]);
      Utf8Adds(JsonChar(s[0]), JsonChars(s[1..]));
    }
  }

  lemma JsonStringSize(s: string)
    ensures Utf8Bytes(JsonString(s)) == 2 + JsonTextBytes(s)
  {
    JsonTextSize(s);
    Utf8Adds("\"" + JsonChars(s), "\"");
    Utf8Adds("\"", JsonChars(s));
    AsciiBytes("\"");
  }

  lemma {:induction false} DecimalLength(n: nat)
    ensures |Decimal(n)| == DigitCount(n)
  {
    if n >= 10 {
      DecimalLength(n / 10);
    }
  }

  lemma LabelledSize(name: string, s: string)
    requires forall i | 0 <= i < |name| :: name[i] as int < 0x80
    ensures Utf8Bytes(name + s) == |name| + Utf8Bytes(s)
  {
    Utf8Adds(name, s);
    AsciiBytes(name);
  }

  lemma CriteriaKeySize(key: string)
    requires key == CRITERIA_KEY
    ensures Utf8Bytes(key) == 23
  {
    AsciiBytes(key);
  }

  lemma CriteriaSize(criteria: string)
    ensures Utf8Bytes(CriteriaText(criteria)) == if criteria == "" then 0 else 23 + 2 + JsonTextBytes(criteria)
  {
    if criteria != "" {
      var key := CRITERIA_KEY;
      CriteriaKeySize(key);
      Utf8Adds(key, JsonString(criteria));
      JsonStringSize(criteria);
    }
  }

  lemma TitleSize(title: string)
    ensures Utf8Bytes(",\"title\":" + JsonString(title)) == 9 + 2 + JsonTextBytes(title)
  {
    LabelledSize(",\"title\":", JsonString(title));
    JsonStringSize(title);
  }

  lemma IdSize(id: nat)
    ensures Utf8Bytes("{\"id\":" + Decimal(id)) == 6 + DigitCount(id)
  {
    LabelledSize("{\"id\":", Decimal(id));
    AsciiBytes(Decimal(id));
    DecimalLength(id);
  }

  lemma FourAdd(a: string, b: string, c: string, d: string)
    ensures Utf8Bytes(a + b + c + d) == Utf8Bytes(a) + Utf8Bytes(b) + Utf8Bytes(c) + Utf8Bytes(d)
  {
    Utf8Adds(a + b + c, d);
    Utf8Adds(a + b, c);
    Utf8Adds(a, b);
  }

  lemma NodeSize(a: AncestryNode)
    ensures Utf8Bytes(NodeText(a)) == NodeBytes(a)
  {
    IdSize(a.id);
    TitleSize(a.title);
    CriteriaSize(a.criteria);
    AsciiBytes("}");
    FourAdd("{\"id\":" + Decimal(a.id), ",\"title\":" + JsonString(a.title), CriteriaText(a.criteria), "}");
  }

  lemma {:induction false} NodesSize(nodes: seq<AncestryNode>)
    requires nodes != []
    ensures Utf8Bytes(NodesText(nodes)) == NodesBytes(nodes) + (|nodes| - 1)
    decreases |nodes|
  {
    var front, last := nodes[..|nodes| - 1], nodes[|nodes| - 1];
    NodeSize(last);
    if |nodes| == 1 {
      assert NodesBytes(front) == 0;
    } else {
      NodesSize(front);
      Utf8Adds(NodesText(front) + ",", NodeText(last));
      Utf8Adds(NodesText(front), ",");
      AsciiBytes(",");
    }
  }

  /** The size the cap looks at is that of the text in the column. */
  lemma AncestrySize(nodes: seq<AncestryNode>)
    ensures Utf8Bytes(AncestryText(nodes)) == AncestryBytes(nodes)
  {
    if nodes == [] {
      AsciiBytes("null");
    } else {
      NodesSize(nodes);
      Utf8Adds("[" + NodesText(nodes), "]");
      Utf8Adds("[", NodesText(nodes));
      AsciiBytes("[");
      AsciiBytes("]");
    }
  }

  /** Extending a chain never shortens its stored form. */
  lemma AncestryBytesGrow(nodes: seq<AncestryNode>, a: AncestryNode)
    ensures AncestryBytes(nodes) < AncestryBytes(nodes + [a])
  {
    assert (nodes + [a])[..|nodes|] == nodes;
  }
}
