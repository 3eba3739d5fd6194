/** The LRU-K replacer as the object it is, each method tied to the step it takes. */
module LruKReplacer {
  import opened Values
  import opened LruK
  import opened LruKHistory

  class LRUKReplacer {
    var currentTimestamp: nat
    var currSize: int
    const replacerSize: nat
    const k: nat
    var frames: seq<Frame>

    ghost function Contents(): State
      reads this
    {
      State(currentTimestamp, currSize, replacerSize, k, frames)
    }

    /** The clock starts at the wall-clock time of creation. */
    constructor (time: nat, numFrames: nat, k: nat)
      requires k >= 1
      ensures Contents() == Fresh(time, numFrames, k) && Valid(Contents())
    {
      currentTimestamp, currSize, replacerSize, this.k, frames := time, 0, numFrames, k, [];
    }

    method FindInternal(id: int) returns (found: bool, index: nat)
      ensures found == (IndexOf(frames, id) < |frames|)
      ensures found ==> index == IndexOf(frames, id)
    {
      index := 0;
      while index < |frames|
        invariant index <= |frames|
        invariant forall j :: 0 <= j < index ==> frames[j].id != id
      {
        if frames[index].id == id {
          return true, index;
        }
        index := index + 1;
      }
      return false, 0;
    }

    method Size() returns (n: int)
      requires Valid(Contents())
      ensures n == Evictables(frames)
    {
      n := currSize;
    }

    method Remove(id: int) returns (thrown: bool)
      requires Valid(Contents())
      modifies this
      ensures thrown == old(RemoveFrame(Contents(), id)).Throw?
      ensures !thrown ==> Contents() == old(RemoveFrame(Contents(), id)).value && Valid(Contents())
      ensures thrown <==> Of(old(frames), id).Some? && !Of(old(frames), id).value.evictable
      ensures !thrown ==> Of(frames, id).None?
                          && forall other :: other != id ==> Of(frames, other) == Of(old(frames), other)
    {
      RemoveKeeps(Contents(), id);
      ghost var s := Contents();
      var found, index := FindInternal(id);
      if !found {
        return false;
      }
      if !frames[index].evictable {
        return true;
      }
      frames := frames[..index] + frames[index + 1..];
      currSize := currSize - 1;
      RemoveOnFrame(s, id, id);
      forall other | other != id ensures Of(frames, other) == Of(s.frames, other) {
        RemoveOnFrame(s, id, other);
      }
      return false;
    }

    method SetEvictable(id: int, on: bool) returns (thrown: bool)
      requires Valid(Contents())
      modifies this
      ensures thrown == old(Toggle(Contents(), id, on)).Throw?
      ensures !thrown ==> Contents() == old(Toggle(Contents(), id, on)).value && Valid(Contents())
      ensures thrown <==> Of(old(frames), id).None?
      ensures !thrown ==> currentTimestamp == old(currentTimestamp)
                          && Of(frames, id) == Some(Of(old(frames), id).value.(evictable := on))
                          && forall other :: other != id ==> Of(frames, other) == Of(old(frames), other)
    {
      ToggleKeeps(Contents(), id, on);
      ghost var s := Contents();
      var found, index := FindInternal(id);
      if !found {
        return true;
      }
      if !frames[index].evictable && on {
        currSize := currSize + 1;
      } else if frames[index].evictable && !on {
        currSize := currSize - 1;
      }
      frames := frames[index := frames[index].(evictable := on)];
      forall other ensures Of(frames, other) ==
                           if other != id then Of(s.frames, other) else Some(Of(s.frames, id).value.(evictable := on))
      {
        ToggleOnFrame(s, id, on, other);
      }
      return false;
    }

    method RecordAccess(id: int) returns (thrown: bool)
      requires Valid(Contents())
      modifies this
      ensures thrown == old(Touch(Contents(), id)).Throw?
      ensures !thrown ==> Contents() == old(Touch(Contents(), id)).value && Valid(Contents())
      ensures thrown <==> Of(old(frames), id).None? && |old(frames)| >= replacerSize
      ensures !thrown ==>
                && currentTimestamp == old(currentTimestamp) + 1
                && Of(frames, id) == Some(match Of(old(frames), id)
                                          case None => Frame(id, [currentTimestamp], false)
                                          case Some(f) => f.(accesses := f.accesses + [currentTimestamp]))
                && forall other :: other != id ==> Of(frames, other) == Of(old(frames), other)
    {
      TouchKeeps(Contents(), id);
      ghost var before, s := frames, Contents();
      currentTimestamp := currentTimestamp + 1;
      var found, index := FindInternal(id);
      if !found {
        if |frames| >= replacerSize {
          return true;
        }
        frames := frames + [Frame(id, [], false)];
        index := |frames| - 1;
      }
      frames := frames[index := frames[index].(accesses := frames[index].accesses + [currentTimestamp])];
      if !found {
        assert frames[index].accesses == [currentTimestamp];
        assert frames == before + [Frame(id, [currentTimestamp], false)];
      }
      assert frames == Touch(s, id).value.frames;
      AccessOnFrame(s, id, id);
      forall other | other != id ensures Of(frames, other) == Of(s.frames, other) {
        AccessOnFrame(s, id, other);
      }
      return false;
    }

    /** The scan of an eviction, from the last frame to the first. */
    method ChooseVictim() returns (found: bool, victim: nat)
      requires k >= 1 && currentTimestamp >= 1
      requires forall j :: 0 <= j < |frames| ==> History(frames[j].accesses, currentTimestamp - 1)
      ensures found <==> Evictables(frames) > 0
      ensures found ==> Scan(frames, currentTimestamp, k, 0).victim == Some(victim)
    {
      var distance: int := 0;
      found, victim := false, 0;
      var i: nat := |frames|;
      while i > 0
        invariant i <= |frames|
        invariant found == Scan(frames, currentTimestamp, k, i).victim.Some?
        invariant distance == Scan(frames, currentTimestamp, k, i).distance
        invariant found ==> Scan(frames, currentTimestamp, k, i).victim == Some(victim)
      {
        i := i - 1;
        ScanFinds(frames, currentTimestamp, k, i + 1);
        var f := frames[i];
        if f.evictable {
          found := true;
          if |f.accesses| < k {
            distance, victim := SIZE_MAX, i;
          } else if currentTimestamp - f.accesses[|f.accesses| - k] > distance {
            distance, victim := currentTimestamp - f.accesses[k - 1], i;
          }
        }
      }
      ScanFinds(frames, currentTimestamp, k, 0);
      assert frames[0..] == frames;
    }

    /** Evicting never trips an assertion, and reports a frame exactly when one is evictable. */
    method Evict() returns (victim: Option<int>)
      requires Valid(Contents())
      modifies this
      ensures Valid(Contents())
      ensures old(EvictFrame(Contents())) == Ok(Outcome(Contents(), victim))
      ensures victim.Some? <==> old(currSize) > 0
    {
      EvictTakesOne(Contents());
      currentTimestamp := currentTimestamp + 1;
      var found, index := ChooseVictim();
      if !found {
        return None;
      }
      victim := Some(frames[index].id);
      var thrown := Remove(frames[index].id);
    }
  }
}
