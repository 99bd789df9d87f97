/**
 * The gameplay object a peer owns: the deck it holds, and the handling of a
 * typed command. Logging is a no-op here.
 */
module Game {
  import opened Wrappers
  import opened PyStr

  class Gameplay {
    /** None until a deck is imported; then the imported card identifiers in order. */
    var deck: Option<seq<string>>

    constructor ()
      ensures deck == None
    {
      deck := None;
    }

    /** With no argument the deck is kept; an imported deck replaces it as given. */
    method CreateDeck(newDeck: Option<seq<string>> := None)
      modifies this
      ensures newDeck.None? ==> deck == old(deck)
      ensures newDeck.Some? ==> deck == newDeck
    {
      if newDeck.Some? {
        deck := newDeck;
      }
    }
  }

  /**
   * handle_input: the command is the first "!" field, compared without
   * regard to case. "chat" returns the second field (IndexError when there
   * is none); every other command, "draw" included, returns "".
   */
  function HandleInput(userInput: string): (r: Result<string, PyError>)
    ensures r.Success? ==> '!' !in r.value
    ensures r.Success? && r.value != "" ==> Lower(Split(userInput, '!')[0]) == "chat"
    ensures r.Failure? ==> r.error == IndexError && '!' !in userInput
  {
    var fields := Split(userInput, '!');
    if Lower(fields[0]) == "chat" then
      if |fields| < 2 then Failure(IndexError) else Success(fields[1])
    else if Lower(fields[0]) == "draw" then
      Success("")
    else
      Success("")
  }

  /** A chat command returns its text verbatim and drops the later fields. */
  lemma ChatReturnsText(fields: seq<string>)
    requires |fields| >= 2 && Lower(fields[0]) == "chat"
    requires forall i :: 0 <= i < |fields| ==> '!' !in fields[i]
    ensures HandleInput(Join(fields, '!')) == Success(fields[1])
  {
    SplitJoin(fields, '!');
  }

  /** A chat command needs a second field. */
  lemma ChatNeedsText(cmd: string)
    requires Lower(cmd) == "chat" && '!' !in cmd
    ensures HandleInput(cmd) == Failure(IndexError)
  {
    assert Split(cmd, '!') == [cmd];
  }

  /** Every command other than chat, draw included, returns "". */
  lemma OtherCommandsReturnEmpty(fields: seq<string>)
    requires |fields| >= 1 && Lower(fields[0]) != "chat"
    requires forall i :: 0 <= i < |fields| ==> '!' !in fields[i]
    ensures HandleInput(Join(fields, '!')) == Success("")
  {
    SplitJoin(fields, '!');
  }

  /** Only the case of the first field is ignored: inputs that differ there only in case give the same result. */
  lemma CaseInsensitiveCommand(fields1: seq<string>, fields2: seq<string>)
    requires |fields1| >= 1 && |fields2| >= 1
    requires Lower(fields1[0]) == Lower(fields2[0]) && fields1[1..] == fields2[1..]
    requires forall i :: 0 <= i < |fields1| ==> '!' !in fields1[i]
    requires forall i :: 0 <= i < |fields2| ==> '!' !in fields2[i]
    ensures HandleInput(Join(fields1, '!')) == HandleInput(Join(fields2, '!'))
  {
    SplitJoin(fields1, '!');
    SplitJoin(fields2, '!');
    assert |fields1| >= 2 ==> fields1[1] == fields1[1..][0] == fields2[1];
  }
}
