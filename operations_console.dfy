/**
 * The operations console: a live, newest-first buffer of audit-log rows, the
 * set of rows shown expanded, and a three-way filter. The realtime channel is
 * not modelled; its insert handler is `OnInsert`.
 */
module OperationsConsole {
  import opened Wrappers
  import opened Schema
  import opened Store

  const MaxLogs: nat := 100

  /** The buffer after a new row arrives: the row first, then the old rows, at most `MaxLogs` in all. */
  function Prepended(row: AuditLogRow, logs: seq<AuditLogRow>): (r: seq<AuditLogRow>)
    ensures |r| == if |logs| + 1 <= MaxLogs then |logs| + 1 else MaxLogs
    ensures r[0] == row
    ensures r[1..] == logs[..|r| - 1]
  {
    var all := [row] + logs;
    assert all[1..] == logs;
    if |all| <= MaxLogs then all else all[..MaxLogs]
  }

  /** The set of expanded ids with `id` flipped. */
  function Toggled(expanded: set<int>, id: int): (r: set<int>)
    ensures id in r <==> id !in expanded
    ensures forall x :: x != id ==> (x in r <==> x in expanded)
  {
    if id in expanded then expanded - {id} else expanded + {id}
  }

  /** Toggling an id twice restores the set. */
  lemma ToggleTwice(expanded: set<int>, id: int)
    ensures Toggled(Toggled(expanded, id), id) == expanded
  {
  }

  datatype LogFilter = All | Writes | Errors

  /** The filter button: all, then writes, then errors, then all again. */
  function NextFilter(f: LogFilter): (g: LogFilter)
    ensures g != f
  {
    match f
    case All => Writes
    case Writes => Errors
    case Errors => All
  }

  /** Three presses bring the filter back. */
  lemma FilterCycle(f: LogFilter)
    ensures NextFilter(NextFilter(NextFilter(f))) == f
    ensures NextFilter(NextFilter(f)) != f
  {
  }

  /** Whether a row passes a filter. */
  function Passes(f: LogFilter, log: AuditLogRow): bool {
    match f
    case All => true
    case Writes => log.op in ["INSERT", "UPDATE", "DELETE"]
    case Errors => log.status == "error"
  }

  /** `xs` is `ys` with some elements left out, in the same order. */
  ghost predicate Subsequence<T>(xs: seq<T>, ys: seq<T>)
    decreases |ys|
  {
    if xs == [] then true
    else if ys == [] then false
    else (xs[0] == ys[0] && Subsequence(xs[1..], ys[1..])) || Subsequence(xs, ys[1..])
  }

  /** The rows shown: exactly those that pass, in buffer order. */
  function FilteredLogs(logs: seq<AuditLogRow>, f: LogFilter): (r: seq<AuditLogRow>)
    ensures forall l :: l in r <==> l in logs && Passes(f, l)
    ensures Subsequence(r, logs)
    ensures f == All ==> r == logs
  {
    if logs == [] then []
    else
      var rest := FilteredLogs(logs[1..], f);
      if Passes(f, logs[0]) then [logs[0]] + rest
      else
        assert rest == [] || Subsequence(rest, logs[1..]);
        rest
  }

  /** The badge colour of an operation; an error status overrides the operation's colour. */
  function OperationColor(op: string, status: string): (c: string)
    ensures status == "error" ==> c == "bg-destructive text-destructive-foreground"
    ensures status != "error" && op !in ["INSERT", "UPDATE", "DELETE", "BEGIN", "COMMIT", "ROLLBACK"] ==>
      c == "bg-secondary"
  {
    if status == "error" then "bg-destructive text-destructive-foreground"
    else match op
      case "INSERT" => "bg-accent text-accent-foreground"
      case "UPDATE" => "bg-info text-info-foreground"
      case "DELETE" => "bg-destructive text-destructive-foreground"
      case "BEGIN" => "bg-muted text-muted-foreground"
      case "COMMIT" => "bg-accent text-accent-foreground"
      case "ROLLBACK" => "bg-destructive text-destructive-foreground"
      case _ => "bg-secondary"
  }

  class Console {
    var logs: seq<AuditLogRow>
    var expanded: set<int>
    var filter: LogFilter

    constructor ()
      ensures logs == [] && expanded == {} && filter == All
    {
      logs, expanded, filter := [], {}, All;
    }

    /** The realtime insert handler. */
    method OnInsert(row: AuditLogRow)
      modifies this`logs
      ensures logs == Prepended(row, old(logs))
    {
      logs := ([row] + logs);
      if |logs| > MaxLogs {
        logs := logs[..MaxLogs];
      }
    }

    /** The initial read of the 50 newest rows (`reply`); a failed read keeps the buffer. */
    method FetchLogs(reply: Reply<seq<AuditLogRow>>)
      modifies this`logs
      ensures logs == if reply.error.None? && reply.data.Some? then reply.data.value else old(logs)
    {
      if reply.error.None? && reply.data.Some? {
        logs := reply.data.value;
      }
    }

    method ToggleExpanded(id: int)
      modifies this`expanded
      ensures expanded == Toggled(old(expanded), id)
    {
      if id in expanded {
        expanded := expanded - {id};
      } else {
        expanded := expanded + {id};
      }
    }

    method ClearLogs()
      modifies this`logs
      ensures logs == []
    {
      logs := [];
    }

    method CycleFilter()
      modifies this`filter
      ensures filter == NextFilter(old(filter))
    {
      filter := match filter case All => Writes case Writes => Errors case Errors => All;
    }
  }
}
