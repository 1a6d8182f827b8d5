/** The plugin's closure as it runs, step for step against `RefreshModel`. */
module MockupPlugin {
  import opened Options
  import opened GeneratedSource
  import opened RefreshModel

  /** A discovery that resolves resumes the plugin, and a chain it ends returns whether it wrote the file. */
  lemma CompleteResumes(w: World, l: Listing)
    requires Reachable(w) && Enabled(w, Complete(l))
    ensures Reachable(Step(w, Complete(l))) && Step(w, Complete(l)).plugin == Resume(w.plugin, l).0
    ensures var result := Resume(w.plugin, l).1;
            result.Some? ==> (result.value <==> Step(w, Complete(l)).chainWrites > 0)
  {
    ReachableInv(w);
    UnwindIsAny(w.plugin.frames, Changes(w.plugin, l));
    StepIsReachable(w, Complete(l));
  }

  class Refresher {
    var refreshInFlight: bool
    var refreshQueued: bool
    var currentSource: string
    var generatedFile: Option<string>
    /** The `changed` flags of the calls suspended at `await refresh()`, outermost first. */
    var suspended: seq<bool>

    /** The run the plugin has been through. */
    ghost var world: World

    function View(): Plugin
      reads this
    {
      Plugin(refreshInFlight, refreshQueued, currentSource, suspended, generatedFile)
    }

    ghost predicate Valid()
      reads this
    {
      Reachable(world) && world.plugin == View()
    }

    constructor (generatedFile: Option<string>, ghost tree: set<string>)
      ensures Valid() && world == NewWorld(tree, generatedFile)
    {
      refreshInFlight, refreshQueued, currentSource, suspended := false, false, "", [];
      this.generatedFile := generatedFile;
      world := NewWorld(tree, generatedFile);
      NewIsReachable(tree, generatedFile);
    }

    /** A call of `refresh()`; `discovering` tells whether it awaits a discovery or returned false at once. */
    method Refresh() returns (discovering: bool)
      modifies this`refreshInFlight, this`refreshQueued
      ensures View() == Begin(old(View())) && discovering == !old(refreshInFlight)
    {
      if refreshInFlight {
        refreshQueued := true;
        return false;
      }
      refreshInFlight := true;
      return true;
    }

    /** Someone calls `refresh()`. */
    method Requested() returns (discovering: bool)
      requires Valid()
      modifies this`refreshInFlight, this`refreshQueued, this`world
      ensures Valid() && world == Step(old(world), Request)
      ensures discovering <==> world.starts > old(world).starts
    {
      StepIsReachable(world, Request);
      world := Step(world, Request);
      discovering := Refresh();
    }

    /** The mockup files become those of `tree`. */
    ghost method FilesChange(tree: set<string>)
      requires Valid() && Enabled(world, Change(tree))
      modifies this`world
      ensures Valid() && world == Step(old(world), Change(tree))
    {
      StepIsReachable(world, Change(tree));
      world := Step(world, Change(tree));
    }

    /** Each call suspended at `await refresh()` returns in turn, the innermost first. */
    method ReturnToCallers(changed: bool) returns (followUp: bool)
      modifies this`suspended
      ensures suspended == [] && followUp == Unwind(old(suspended), changed)
      ensures followUp <==> changed || true in old(suspended)
    {
      UnwindIsAny(suspended, changed);
      followUp := changed;
      while suspended != []
        invariant Unwind(suspended, followUp) == Unwind(old(suspended), changed)
        decreases |suspended|
      {
        followUp := suspended[|suspended| - 1] || followUp;
        suspended := suspended[..|suspended| - 1];
      }
    }

    /** The discovery resolved to `components`; the result is the outermost call's, if the chain is over, and
        tells whether the chain has written the file. */
    method Discovered(components: Listing) returns (result: Option<bool>)
      requires Valid() && Enabled(world, Complete(components))
      modifies this
      ensures Valid() && world == Step(old(world), Complete(components))
      ensures (View(), result) == Resume(old(View()), components)
      ensures result.Some? ==> (result.value <==> world.chainWrites > 0)
    {
      ghost var before := View();
      CompleteResumes(world, components);
      world := Step(world, Complete(components));
      var changed := false;
      var newSource := GenerateSource(components);
      if newSource != currentSource {
        currentSource := newSource;
        generatedFile := Some(currentSource);
        changed := true;
      }
      refreshInFlight := false;

      if refreshQueued {
        refreshQueued := false;
        suspended := suspended + [changed];
        var discovering := Refresh();
        assert (View(), None) == Resume(before, components);
        return None;
      }

      var followUp := ReturnToCallers(changed);
      assert (View(), Some(followUp)) == Resume(before, components);
      return Some(followUp);
    }

    /** The discovery rejected: `finally` resets the flag and every suspended caller rejects with it. */
    method Failed()
      requires Valid() && Enabled(world, Fail)
      modifies this
      ensures Valid() && world == Step(old(world), Fail)
      ensures currentSource == old(currentSource) && generatedFile == old(generatedFile)
      ensures refreshQueued == old(refreshQueued)
    {
      StepIsReachable(world, Fail);
      world := Step(world, Fail);
      refreshInFlight := false;
      suspended := [];
    }

    /** The discovery resolved to `components` and writing the file threw: what was on disk, or a part of the
        new text, is `left`, and every suspended caller rejects. */
    method DiscoveredUnwritten(components: Listing, left: Option<string>)
      requires Valid() && Enabled(world, WriteFails(components, left))
      modifies this
      ensures Valid() && world == Step(old(world), WriteFails(components, left))
      ensures currentSource == GenerateSource(components) && generatedFile == left
      ensures refreshQueued == old(refreshQueued)
    {
      StepIsReachable(world, WriteFails(components, left));
      world := Step(world, WriteFails(components, left));
      var newSource := GenerateSource(components);
      currentSource := newSource;
      generatedFile := left;
      refreshInFlight := false;
      suspended := [];
    }

    /** What the plugin serves is the module of the files there are, once nothing is in flight, the last refresh
        has not failed and no file has changed since the last request; what is on disk is the same exactly if
        the last write went through. */
    lemma ServesCurrentFiles() returns (listing: Listing)
      requires Valid() && !refreshInFlight && !world.lastFailed
      requires world.requests > 0 && world.lastChange <= world.lastRequest
      ensures Lists(listing, world.tree)
      ensures currentSource == GenerateSource(listing)
      ensures generatedFile == Some(currentSource) <==> world.intact
    {
      FreshAtQuiescence(world);
      ReachableInv(world);
      listing :| Lists(listing, world.tree) && world.plugin.source == GenerateSource(listing);
    }
  }
}
