/** The new contents that a server change really writes, as a patch for the configure command. */
module ServerPatch {
  import opened Configure
  import opened TextLines
  import opened Transaction
  import opened Wrappers
  import ComposePatch
  import EnvPatch

  const COMPOSE := 3

  /** What the new address puts into agent.env and lensnode.env, and its quoted form for the Compose file;
      `docker` says that it is the Docker host. */
  datatype Address = Address(agent: map<string, string>, engine: map<string, string>, quoted: string, docker: bool)

  /** `patch` computes the environment files and the Compose file as the command does. */
  ghost predicate Computes(patch: Patch, a: Address, quote: EnvPatch.Quote) {
    && (forall data :: patch(0, data) == EnvPatch.Patched(data, a.agent, quote))
    && (forall data :: patch(LENS_ENV, data) == EnvPatch.Patched(data, a.engine, quote))
    && (forall data, r | ComposePatch.PatchedText(data, a.quoted, a.docker, Some(r)) :: patch(COMPOSE, data) == r)
  }

  ghost predicate Quotes(a: Address, quote: EnvPatch.Quote) {
    '\n' !in a.quoted && EnvPatch.OnOneLine(a.agent, quote) && EnvPatch.OnOneLine(a.engine, quote)
  }

  /** On a gateway the Compose file can be patched, and a second time. */
  ghost predicate ComposeSettles(text: string, a: Address) {
    && (exists once :: ComposePatch.PatchedText(text, a.quoted, a.docker, Some(once)))
    && (!a.docker || ComposePatch.RoomForBlock(Split(text), a.quoted))
  }

  /** Such a patch settles at once, given that the one of config.json does. */
  lemma AddressSettles(base: seq<File>, gateway: bool, patch: Patch, a: Address, quote: EnvPatch.Quote)
    requires |base| == GATEWAY_PATHS && Computes(patch, a, quote) && Quotes(a, quote)
    requires base[1].Present? ==> patch(1, patch(1, base[1].data)) == patch(1, base[1].data)
    requires gateway ==> ComposeSettles(DataOf(base[COMPOSE]), a)
    ensures SettlesAtOnce(base, gateway, patch)
  {
    hide EnvPatch.Patched, ComposePatch.PatchedText, ComposePatch.RoomForBlock;
    var saved := base[..PathCount(gateway)];
    forall i | 0 <= i < |saved| && Updated(saved, i)
      ensures patch(i, NewContent(saved, patch, i)) == NewContent(saved, patch, i)
    {
      var data := DataOf(saved[i]);
      match i
      case 0 => EnvPatch.Idempotent(data, a.agent, quote);
      case 1 =>
      case 2 => EnvPatch.Idempotent(data, a.engine, quote);
      case _ => ComposeTwice(data, patch, a, quote);
    }
  }

  lemma ComposeTwice(text: string, patch: Patch, a: Address, quote: EnvPatch.Quote)
    requires Computes(patch, a, quote) && Quotes(a, quote) && ComposeSettles(text, a)
    ensures patch(COMPOSE, patch(COMPOSE, text)) == patch(COMPOSE, text)
  {
    hide ComposePatch.Patched, ComposePatch.RoomForBlock, EnvPatch.Patched;
    var once :| ComposePatch.PatchedText(text, a.quoted, a.docker, Some(once));
    var lines := ComposePatch.Answered(Split(once), a.quoted, a.docker);
    var again := if lines.Some? then Some(Join(lines.value)) else None;
    assert ComposePatch.PatchedText(once, a.quoted, a.docker, again);
    ComposePatch.TextIdempotentIff(text, a.quoted, a.docker, once, again);
  }

  /** The same server asked for twice: the second command changes nothing. */
  method SameServerTwice(node: Node, pid: nat, gateway: bool, patch: Patch, a: Address, quote: EnvPatch.Quote)
    returns (first: Outcome, second: Outcome, changed: bool)
    requires node.Valid() && node.state.None? && Computes(patch, a, quote) && Quotes(a, quote)
    requires |node.files| == GATEWAY_PATHS
    requires node.files[1].Present? ==>
               patch(1, patch(1, node.files[1].data)) == patch(1, node.files[1].data)
    requires gateway ==> ComposeSettles(DataOf(node.files[COMPOSE]), a)
    modifies node
    ensures node.Continued()
    ensures first == Ok && second == Ok ==> !changed && |node.versions| <= |old(node.versions)| + 1
    ensures node.conditions == Calm && first == Ok ==> second == Ok
  {
    hide Computes, ComposeSettles, Quotes, Node.Valid, SettlesAtOnce;
    AddressSettles(node.files, gateway, patch, a, quote);
    first, second, changed := node.ConfigureAgain(pid, gateway, patch);
  }
}
