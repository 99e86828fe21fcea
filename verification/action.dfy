/**
  The part of the action base class every concrete action relies on.

  An action issues commands through `Execute`, which hands back an identifier that the
  reply will later carry; here the identifier of a command is its position in the
  action's log of issued commands, so every identifier an action receives is fresh.
  `Finish` marks the action finished; the model counts the calls, so that an action that
  finishes twice can be seen to do so.  Presentation refreshes (reloading the backtrace
  or threads dialog, refreshing the watches or the value tooltip) are recorded as events.
*/
module Action {

  /** The fire-and-forget notifications the actions send to the presentation layer. */
  datatype Refresh = ReloadBacktrace | ReloadThreads | UpdateWatches | UpdateValueTooltip

  /** The identifier `Execute` returns for a command. */
  type CommandId = nat

  class ActionCore {
    /** Every command this action issued, in order; a command's identifier is its index. */
    var issued: seq<string>
    /** Every refresh this action asked the presentation layer for, in order. */
    var refreshes: seq<Refresh>
    /** How many times `Finish` ran. */
    var finishes: nat

    constructor ()
      ensures issued == [] && refreshes == [] && finishes == 0
    {
      issued, refreshes, finishes := [], [], 0;
    }

    /** Queues `cmd` and returns a fresh identifier for its reply. */
    method Execute(cmd: string) returns (id: CommandId)
      modifies this
      ensures id == |old(issued)| && issued == old(issued) + [cmd]
      ensures refreshes == old(refreshes) && finishes == old(finishes)
    {
      id := |issued|;
      issued := issued + [cmd];
    }

    method Finish()
      modifies this
      ensures finishes == old(finishes) + 1
      ensures issued == old(issued) && refreshes == old(refreshes)
    {
      finishes := finishes + 1;
    }

    method Notify(r: Refresh)
      modifies this
      ensures refreshes == old(refreshes) + [r]
      ensures issued == old(issued) && finishes == old(finishes)
    {
      refreshes := refreshes + [r];
    }
  }
}
