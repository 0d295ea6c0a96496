/** The two tool callbacks registered on the root agent. Before each tool
    call the agent logs the tool name and the first 200 characters of the
    stringified arguments; after it, the tool name and the first 300
    characters of the stringified response. The stringification (`str()` of
    a Python dict) is passed in as a function; `print` becomes a record
    appended to a log. */
module Audit {
  import opened Guardrail
  import opened Executor

  const ArgsPreviewLimit: nat := 200
  const ResponsePreviewLimit: nat := 300

  /** Python's `text[:limit]`. */
  function Preview(text: string, limit: nat): (p: string)
    ensures |p| <= limit && |p| <= |text|
    ensures p == text[..|p|]
    ensures |p| == |text| || |p| == limit
  {
    if |text| <= limit then text else text[..limit]
  }

  /** One line of the audit log, before its rendering by `print`. */
  datatype AuditRecord =
    | Before(tool: string, argsPreview: string)
    | After(tool: string, responsePreview: string)

  /** `before_tool_callback`: the record it prints for a call. */
  function BeforeRecord(tool: string, argsText: string): (r: AuditRecord)
    ensures r.Before? && r.tool == tool
    ensures |r.argsPreview| <= ArgsPreviewLimit && |r.argsPreview| <= |argsText|
    ensures r.argsPreview == argsText[..|r.argsPreview|]
    ensures |argsText| <= ArgsPreviewLimit ==> r.argsPreview == argsText
    ensures |argsText| > ArgsPreviewLimit ==> |r.argsPreview| == ArgsPreviewLimit
  {
    Before(tool, Preview(argsText, ArgsPreviewLimit))
  }

  /** `after_tool_callback`: the record it prints for a response. */
  function AfterRecord(tool: string, responseText: string): (r: AuditRecord)
    ensures r.After? && r.tool == tool
    ensures |r.responsePreview| <= ResponsePreviewLimit && |r.responsePreview| <= |responseText|
    ensures r.responsePreview == responseText[..|r.responsePreview|]
    ensures |responseText| <= ResponsePreviewLimit ==> r.responsePreview == responseText
    ensures |responseText| > ResponsePreviewLimit ==> |r.responsePreview| == ResponsePreviewLimit
  {
    After(tool, Preview(responseText, ResponsePreviewLimit))
  }

  const BeforeHead: string := "BEFORE TOOL | "
  const BeforeSep: string := " | Args: "
  const AfterHead: string := "AUDIT LOG | Tool: "
  const AfterSep: string := " | Response: "

  /** The first position at or after `i` holding a `|`, or `|s|`. */
  function NextBar(s: string, i: nat): (j: nat)
    requires i <= |s|
    ensures i <= j <= |s|
    ensures forall m :: i <= m < j ==> s[m] != '|'
    ensures j == |s| || s[j] == '|'
    decreases |s| - i
  {
    if i == |s| || s[i] == '|' then i else NextBar(s, i + 1)
  }

  /** Split a line of the form `head + name + sep + text`, where `sep`
      starts with a space and a `|`, at the first `|` after `head`. */
  function ReadFields(line: string, head: string, sep: string): Option<(string, string)> {
    if |line| < |head| || line[..|head|] != head then None
    else
      var j := NextBar(line, |head|);
      if j < |head| + 1 || |line| < j - 1 + |sep| || line[j - 1..j - 1 + |sep|] != sep then None
      else Some((line[|head|..j - 1], line[j - 1 + |sep|..]))
  }

  lemma ReadFieldsOf(head: string, name: string, sep: string, text: string)
    requires '|' !in name
    requires |sep| >= 2 && sep[0] == ' ' && sep[1] == '|'
    ensures ReadFields(head + name + sep + text, head, sep) == Some((name, text))
  {
    var line := head + name + sep + text;
    var bar := |head| + |name| + 1;
    assert line[bar] == '|';
    forall m | |head| <= m < bar
      ensures line[m] != '|'
    {
      if m < |head| + |name| {
        assert line[m] == name[m - |head|];
      }
    }
    assert NextBar(line, |head|) == bar;
    assert line[..|head|] == head;
    assert line[|head|..bar - 1] == name;
    assert line[bar - 1..bar - 1 + |sep|] == sep;
    assert line[bar - 1 + |sep|..] == text;
  }

  /** Recover the record a printed line came from. */
  function ReadRecord(line: string): Option<AuditRecord> {
    match ReadFields(line, BeforeHead, BeforeSep)
    case Some(fields) => Some(Before(fields.0, fields.1))
    case None =>
      match ReadFields(line, AfterHead, AfterSep)
      case Some(fields) => Some(After(fields.0, fields.1))
      case None => None
  }

  /** The text each callback prints. For a tool name without a `|` (every
      Python identifier) the line can be read back into its record, so the
      log loses neither the tool nor the preview. */
  function LogLine(r: AuditRecord): (line: string)
    ensures '|' !in r.tool ==> ReadRecord(line) == Some(r)
  {
    match r
    case Before(tool, args) =>
      var line := BeforeHead + tool + BeforeSep + args;
      if '|' in tool then line
      else
        ReadFieldsOf(BeforeHead, tool, BeforeSep, args);
        line
    case After(tool, response) =>
      var line := AfterHead + tool + AfterSep + response;
      if '|' in tool then line
      else
        ReadFieldsOf(AfterHead, tool, AfterSep, response);
        assert line[0] != BeforeHead[0];
        line
  }

  /** The tool name under which `execute_sql` is registered. */
  const ExecuteSqlTool: string := "execute_sql"

  /** A tool invocation as the agent framework performs it: callbacks
      around the tool body. */
  datatype Invocation<R> = Invocation(
    envelope: Envelope<R>,
    warehouseCalls: seq<string>,
    trace: seq<AuditRecord>)

  /** One call of `execute_sql` with both callbacks: Before, the tool body,
      then After, on every path including the blocked one. The callbacks
      return `None`, so the response is passed through unchanged. */
  function InvokeExecuteSql<R>(
    query: string,
    warehouse: string -> Outcome<R>,
    showArgs: string -> string,
    showEnvelope: Envelope<R> -> string): (inv: Invocation<R>)
    ensures inv.envelope == ExecuteSql(query, warehouse).envelope
    ensures inv.envelope.BlockedEnvelope? <==> Admit(query).Blocked?
    ensures inv.warehouseCalls == if Admit(query) == Admitted then [query] else []
    ensures |inv.trace| == 2
    ensures inv.trace[0].Before? && inv.trace[0].tool == ExecuteSqlTool
    ensures inv.trace[1].After? && inv.trace[1].tool == ExecuteSqlTool
    ensures var args := showArgs(query); var p := inv.trace[0].argsPreview;
      && |p| == (if |args| <= ArgsPreviewLimit then |args| else ArgsPreviewLimit)
      && p == args[..|p|]
    ensures var response := showEnvelope(inv.envelope); var p := inv.trace[1].responsePreview;
      && |p| == (if |response| <= ResponsePreviewLimit then |response| else ResponsePreviewLimit)
      && p == response[..|p|]
  {
    var before := BeforeRecord(ExecuteSqlTool, showArgs(query));
    var x := ExecuteSql(query, warehouse);
    var after := AfterRecord(ExecuteSqlTool, showEnvelope(x.envelope));
    Invocation(x.envelope, x.warehouseCalls, [before, after])
  }

  /** A blocked query is audited like any other: a Before record, then an
      After record previewing the `blocked` envelope; the warehouse is
      never called. */
  lemma BlockedCallIsAudited<R>(
    query: string,
    warehouse: string -> Outcome<R>,
    showArgs: string -> string,
    showEnvelope: Envelope<R> -> string)
    requires Admit(query).Blocked?
    ensures var inv := InvokeExecuteSql(query, warehouse, showArgs, showEnvelope);
      && inv.warehouseCalls == []
      && inv.trace[0].Before? && inv.trace[1].After?
      && inv.trace[1].responsePreview
           == Preview(showEnvelope(BlockedEnvelope(BlockedMessage(Admit(query).keyword))),
                      ResponsePreviewLimit)
  {
  }

  /** A call the agent makes: `execute_sql`, or another tool (schema
      lookup, table listing, the SQL validator) given by its name and the
      stringified arguments and response it produced. A call to
      `execute_sql` is always a `SqlCall`; an `OtherCall` names one of the
      other registered tools, never `ExecuteSqlTool`. */
  datatype ToolCall =
    | SqlCall(query: string)
    | OtherCall(tool: string, argsText: string, responseText: string)

  /** The audit records and warehouse calls one tool call produces. */
  function InvokeTool<R>(
    call: ToolCall,
    warehouse: string -> Outcome<R>,
    showArgs: string -> string,
    showEnvelope: Envelope<R> -> string): (r: (seq<AuditRecord>, seq<string>))
    ensures |r.0| == 2 && r.0[0].Before? && r.0[1].After?
    ensures r.0[0].tool == r.0[1].tool
    ensures r.0[0].tool == if call.SqlCall? then ExecuteSqlTool else call.tool
    ensures call.OtherCall? ==>
      && r.0[0].argsPreview == Preview(call.argsText, ArgsPreviewLimit)
      && r.0[1].responsePreview == Preview(call.responseText, ResponsePreviewLimit)
    ensures call.SqlCall? ==>
      && r.0[0].argsPreview == Preview(showArgs(call.query), ArgsPreviewLimit)
      && r.0[1].responsePreview
           == Preview(showEnvelope(ExecuteSql(call.query, warehouse).envelope), ResponsePreviewLimit)
    ensures r.1 == SentBy(call)
  {
    match call
    case SqlCall(query) =>
      var inv := InvokeExecuteSql(query, warehouse, showArgs, showEnvelope);
      (inv.trace, inv.warehouseCalls)
    case OtherCall(tool, argsText, responseText) =>
      ([BeforeRecord(tool, argsText), AfterRecord(tool, responseText)], [])
  }

  /** The query a call would send to the warehouse, if any. */
  function SentBy(call: ToolCall): (sent: seq<string>)
    ensures |sent| <= 1
    ensures forall q :: q in sent <==> call == SqlCall(q) && Admit(q) == Admitted
  {
    if call.SqlCall? && Admit(call.query) == Admitted then [call.query] else []
  }

  /** The concatenation of `xss` in order. */
  function Flatten<T>(xss: seq<seq<T>>): seq<T> {
    if xss == [] then []
    else Flatten(xss[..|xss| - 1]) + xss[|xss| - 1]
  }

  /** An element of the concatenation comes from one of the parts, and
      every part's elements are in it. */
  lemma {:induction false} FlattenMembers<T>(xss: seq<seq<T>>, x: T)
    ensures x in Flatten(xss) <==> exists k :: 0 <= k < |xss| && x in xss[k]
  {
    if xss != [] {
      var init := xss[..|xss| - 1];
      FlattenMembers(init, x);
      assert forall k :: 0 <= k < |init| ==> init[k] == xss[k];
    }
  }

  /** When every part is a pair, part `k`'s first element sits at `2k` and
      its second at `2k + 1`. */
  lemma {:induction false} FlattenPairs<T>(xss: seq<seq<T>>, k: nat)
    requires forall j :: 0 <= j < |xss| ==> |xss[j]| == 2
    requires k < |xss|
    ensures |Flatten(xss)| == 2 * |xss|
    ensures Flatten(xss)[2 * k] == xss[k][0]
    ensures Flatten(xss)[2 * k + 1] == xss[k][1]
  {
    var init := xss[..|xss| - 1];
    assert forall j :: 0 <= j < |init| ==> init[j] == xss[j];
    if init != [] {
      FlattenPairs(init, 0);
    }
    if k < |init| {
      FlattenPairs(init, k);
    }
  }

  lemma FlattenAllPairs<T>(xss: seq<seq<T>>)
    requires forall j :: 0 <= j < |xss| ==> |xss[j]| == 2
    ensures |Flatten(xss)| == 2 * |xss|
    ensures forall k :: 0 <= k < |xss| ==>
      Flatten(xss)[2 * k] == xss[k][0] && Flatten(xss)[2 * k + 1] == xss[k][1]
  {
    if xss != [] {
      FlattenPairs(xss, 0);
    }
    forall k | 0 <= k < |xss|
      ensures Flatten(xss)[2 * k] == xss[k][0] && Flatten(xss)[2 * k + 1] == xss[k][1]
    {
      FlattenPairs(xss, k);
    }
  }

  /** The queries that reach the warehouse during a sequence of calls, in
      call order. */
  function WarehouseCalls(calls: seq<ToolCall>): seq<string> {
    Flatten(Map(SentBy, calls))
  }

  /** Only admitted queries ever reach the warehouse, and every admitted
      `execute_sql` query does. */
  lemma WarehouseSeesOnlyAdmitted(calls: seq<ToolCall>, q: string)
    ensures q in WarehouseCalls(calls) <==>
      exists k :: 0 <= k < |calls| && calls[k] == SqlCall(q) && Admit(q) == Admitted
  {
    var sends := Map(SentBy, calls);
    FlattenMembers(sends, q);
    forall k | 0 <= k < |calls|
      ensures q in sends[k] <==> calls[k] == SqlCall(q) && Admit(q) == Admitted
    {
      assert q in SentBy(calls[k]) <==> calls[k] == SqlCall(q) && Admit(q) == Admitted;
    }
  }

  /** `f` applied to each element of `xs`, in order. */
  function Map<A, B>(f: A -> B, xs: seq<A>): (ys: seq<B>)
    ensures |ys| == |xs|
    ensures forall k :: 0 <= k < |xs| ==> ys[k] == f(xs[k])
  {
    seq(|xs|, k requires 0 <= k < |xs| => f(xs[k]))
  }

  lemma MapSnoc<A, B>(f: A -> B, xs: seq<A>, i: nat)
    requires i < |xs|
    ensures Map(f, xs[..i + 1]) == Map(f, xs[..i]) + [f(xs[i])]
  {
    assert forall k :: 0 <= k < i ==> xs[..i + 1][k] == xs[..i][k];
  }

  /** The audit log of a sequence of calls: each call's two records, in
      call order. */
  function SessionLog<R>(
    calls: seq<ToolCall>,
    warehouse: string -> Outcome<R>,
    showArgs: string -> string,
    showEnvelope: Envelope<R> -> string): seq<AuditRecord>
  {
    Flatten(Map((c: ToolCall) => InvokeTool(c, warehouse, showArgs, showEnvelope).0, calls))
  }

  /** One more call appends that call's records to the log. */
  lemma SessionLogSnoc<R>(
    calls: seq<ToolCall>,
    i: nat,
    warehouse: string -> Outcome<R>,
    showArgs: string -> string,
    showEnvelope: Envelope<R> -> string)
    requires i < |calls|
    ensures SessionLog(calls[..i + 1], warehouse, showArgs, showEnvelope)
      == SessionLog(calls[..i], warehouse, showArgs, showEnvelope)
         + InvokeTool(calls[i], warehouse, showArgs, showEnvelope).0
  {
    MapSnoc((c: ToolCall) => InvokeTool(c, warehouse, showArgs, showEnvelope).0, calls, i);
  }

  /** One more call appends what that call sends. */
  lemma WarehouseCallsSnoc(calls: seq<ToolCall>, i: nat)
    requires i < |calls|
    ensures WarehouseCalls(calls[..i + 1]) == WarehouseCalls(calls[..i]) + SentBy(calls[i])
  {
    MapSnoc(SentBy, calls, i);
  }

  /** Call `k`'s Before and After records sit at `2k` and `2k + 1`. */
  lemma SessionLogPairs<R>(
    calls: seq<ToolCall>,
    warehouse: string -> Outcome<R>,
    showArgs: string -> string,
    showEnvelope: Envelope<R> -> string)
    ensures |SessionLog(calls, warehouse, showArgs, showEnvelope)| == 2 * |calls|
    ensures forall k :: 0 <= k < |calls| ==>
      var log := SessionLog(calls, warehouse, showArgs, showEnvelope);
      var r := InvokeTool(calls[k], warehouse, showArgs, showEnvelope).0;
      log[2 * k] == r[0] && log[2 * k + 1] == r[1]
  {
    FlattenAllPairs(Map((c: ToolCall) => InvokeTool(c, warehouse, showArgs, showEnvelope).0, calls));
  }

  /** A run of tool calls in order, each wrapped in its callbacks, appending
      to the log and recording what reached the warehouse. */
  method RunSession<R>(
    calls: seq<ToolCall>,
    warehouse: string -> Outcome<R>,
    showArgs: string -> string,
    showEnvelope: Envelope<R> -> string)
    returns (log: seq<AuditRecord>, sent: seq<string>)
    ensures |log| == 2 * |calls|
    ensures forall k :: 0 <= k < |calls| ==>
      var r := InvokeTool(calls[k], warehouse, showArgs, showEnvelope).0;
      log[2 * k] == r[0] && log[2 * k + 1] == r[1]
    ensures sent == WarehouseCalls(calls)
    ensures forall q :: q in sent <==>
      exists k :: 0 <= k < |calls| && calls[k] == SqlCall(q) && Admit(q) == Admitted
  {
    log := [];
    sent := [];
    var i := 0;
    while i < |calls|
      invariant 0 <= i <= |calls|
      invariant log == SessionLog(calls[..i], warehouse, showArgs, showEnvelope)
      invariant sent == WarehouseCalls(calls[..i])
    {
      var r := InvokeTool(calls[i], warehouse, showArgs, showEnvelope);
      SessionLogSnoc(calls, i, warehouse, showArgs, showEnvelope);
      WarehouseCallsSnoc(calls, i);
      log := log + r.0;
      sent := sent + r.1;
      i := i + 1;
    }
    assert calls[..i] == calls;
    SessionLogPairs(calls, warehouse, showArgs, showEnvelope);
    forall q
      ensures q in sent <==>
        exists k :: 0 <= k < |calls| && calls[k] == SqlCall(q) && Admit(q) == Admitted
    {
      WarehouseSeesOnlyAdmitted(calls, q);
    }
  }
}
