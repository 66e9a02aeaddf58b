/** Persistent settings (src/settings.c) over a key-value store whose writes may fail. */
module Settings {
  import opened Words

  const ENOENT := 2
  const EIO := 5

  type Values = map<string, seq<u8>>

  /** The number of writes that fail before the first that succeeds. */
  function Failures(faults: seq<bool>): nat {
    if faults != [] && faults[0] then 1 + Failures(faults[1..]) else 0
  }

  /** The faults left after the first write that succeeds. */
  function AfterSuccess(faults: seq<bool>): seq<bool> {
    if faults == [] then [] else if faults[0] then AfterSuccess(faults[1..]) else faults[1..]
  }

  /** The failures are the leading faults, and the success after them uses up one more. */
  lemma {:induction false} FirstSuccess(faults: seq<bool>)
    ensures var n := Failures(faults);
      && n <= |faults| && (forall i :: 0 <= i < n ==> faults[i]) && (n < |faults| ==> !faults[n])
      && AfterSuccess(faults) == if n < |faults| then faults[n + 1..] else []
  {
    if faults != [] && faults[0] {
      FirstSuccess(faults[1..]);
    }
  }

  /** The store. `faults` says of each coming write whether it fails; writes after those succeed.
      `writes` counts the attempts. */
  class Store {
    var values: Values
    var faults: seq<bool>
    ghost var writes: nat

    constructor (values: Values, faults: seq<bool>)
      ensures this.values == values && this.faults == faults && writes == 0
    {
      this.values, this.faults, writes := values, faults, 0;
    }

    /** `settings_save_one`. */
    method SaveOne(key: string, value: seq<u8>) returns (rc: int)
      modifies this
      ensures rc == if old(faults) != [] && old(faults)[0] then -EIO else 0
      ensures values == if rc == 0 then old(values)[key := value] else old(values)
      ensures faults == if old(faults) == [] then [] else old(faults)[1..]
      ensures writes == old(writes) + 1
    {
      writes := writes + 1;
      rc := if faults != [] && faults[0] then -EIO else 0;
      if rc == 0 {
        values := values[key := value];
      }
      faults := if faults == [] then [] else faults[1..];
    }

    /** `load_immediate_value`: an entry of another length is an error, and leaves `dest` alone. */
    method LoadImmediateValue(key: string, dest0: seq<u8>) returns (rc: int, dest: seq<u8>)
      ensures rc == (if key !in values then -ENOENT else if |values[key]| != |dest0| then -EINVAL else 0)
      ensures dest == if rc == 0 then values[key] else dest0
    {
      var fetched := false;
      rc, dest := 0, dest0;
      if key in values {
        if |values[key]| == |dest0| {
          dest := values[key];
          fetched := true;
        } else {
          rc := -EINVAL;
        }
      }
      if rc == 0 {
        if !fetched {
          rc := -ENOENT;
        }
      }
    }

    /** `load_immediate_value_init_default`: keeps an existing entry; otherwise writes the default,
        trying until a write succeeds. */
    method LoadImmediateValueInitDefault(key: string, dest0: seq<u8>, init: seq<u8>) returns (rc: int, dest: seq<u8>)
      modifies this
      ensures values == if key in old(values) then old(values) else old(values)[key := init]
      ensures rc == if |values[key]| == |dest0| then 0 else -EINVAL
      ensures dest == if rc == 0 then values[key] else dest0
      ensures faults == (if key in old(values) then old(faults) else AfterSuccess(old(faults)))
      ensures writes == old(writes) + (if key in old(values) then 0 else Failures(old(faults)) + 1)
    {
      rc, dest := LoadImmediateValue(key, dest0);
      while rc == -ENOENT
        invariant key in old(values) ==> values == old(values) && faults == old(faults) && writes == old(writes)
        invariant key !in old(values) && key !in values ==>
          && values == old(values) && AfterSuccess(faults) == AfterSuccess(old(faults))
          && writes + Failures(faults) == old(writes) + Failures(old(faults))
        invariant key !in old(values) && key in values ==>
          && values == old(values)[key := init] && faults == AfterSuccess(old(faults))
          && writes == old(writes) + Failures(old(faults)) + 1
        invariant rc == (if key !in values then -ENOENT else if |values[key]| != |dest0| then -EINVAL else 0)
        invariant dest == if rc == 0 then values[key] else dest0
        decreases key !in values, |faults|
      {
        var _ := SaveOne(key, init);
        rc, dest := LoadImmediateValue(key, dest);
      }
      rc, dest := LoadImmediateValue(key, dest);
    }
  }
}
