/**
 * The watermark store (core/state.py): a key/value dictionary held in memory
 * by `State`, re-saved as one whole snapshot through its storage on every
 * write, and loaded from that storage once, when the `State` is built.
 * `RedisStorage` keeps the snapshot under the Redis key "data" and reads it
 * once, when it is itself built.
 */
module StateStore {
  import opened Values
  import opened RedisStore

  /** The Redis key under which the whole snapshot is kept. */
  const DataKey: string := "data"

  /** Dictionary lookup with a default, Python's `dict.get(key, default)`. */
  function Lookup(data: Snapshot, key: string, default: int): (v: int)
    ensures key in data ==> v == data[key]
    ensures key !in data ==> v == default
  {
    if key in data then data[key] else default
  }

  /** Writing a key and reading it back gives the written value, whatever the default. */
  lemma ReadYourWrite(data: Snapshot, key: string, value: int, default: int)
    ensures Lookup(data[key := value], key, default) == value
  {
  }

  /** Writing one key leaves every other key's reading as it was. */
  lemma WriteIsolated(data: Snapshot, key: string, value: int, other: string, default: int)
    requires other != key
    ensures Lookup(data[key := value], other, default) == Lookup(data, other, default)
  {
  }

  class RedisStorage {
    const redisAdapter: Redis
    /** The raw value read from Redis when this storage was built (None: nothing stored). */
    var data: Option<Snapshot>

    constructor (redisAdapter: Redis)
      ensures this.redisAdapter == redisAdapter
      ensures DataKey in redisAdapter.strings ==> data == Some(redisAdapter.strings[DataKey])
      ensures DataKey !in redisAdapter.strings ==> data == None
    {
      var stored := redisAdapter.Get(DataKey);
      this.redisAdapter := redisAdapter;
      data := stored;
    }

    /** Overwrites the whole stored snapshot; the snapshot read at construction stays as it was. */
    method SaveState(state: Snapshot)
      requires redisAdapter.Valid()
      modifies redisAdapter
      ensures redisAdapter.Valid()
      ensures redisAdapter.strings == old(redisAdapter.strings)[DataKey := state]
      ensures redisAdapter.sets == old(redisAdapter.sets)
      ensures data == old(data)
    {
      redisAdapter.Set(DataKey, state);
    }

    /** The snapshot read at construction, or the empty dictionary when nothing was stored. */
    function RetrieveState(): (s: Snapshot)
      reads this
      ensures data == None ==> s == map[]
      ensures data != None ==> s == data.value
    {
      match data
      case None => map[]
      case Some(snapshot) => snapshot
    }
  }

  class State {
    const storage: RedisStorage
    var data: Snapshot

    /** Loads the data from storage, once. */
    constructor (storage: RedisStorage)
      ensures this.storage == storage
      ensures data == storage.RetrieveState()
    {
      this.storage := storage;
      data := storage.RetrieveState();
    }

    /** Sets one key, then saves the entire dictionary, not just that key. */
    method WriteState(key: string, value: int)
      requires storage.redisAdapter.Valid()
      modifies this, storage.redisAdapter
      ensures storage.redisAdapter.Valid()
      ensures data == old(data)[key := value]
      ensures storage.redisAdapter.strings == old(storage.redisAdapter.strings)[DataKey := data]
      ensures storage.redisAdapter.sets == old(storage.redisAdapter.sets)
      ensures storage.data == old(storage.data)
    {
      data := data[key := value];
      storage.SaveState(data);
    }

    /** The value under `key`, or `default` when the key is absent. */
    function ReadState(key: string, default: int): (v: int)
      reads this
      ensures key in data ==> v == data[key]
      ensures key !in data ==> v == default
    {
      Lookup(data, key, default)
    }
  }

  /**
   * A restart: after a write, a new `State` over a new `RedisStorage` on the
   * same server reads the written value back.
   */
  method ReadAfterRestart(state: State, key: string, value: int, default: int) returns (r: int)
    requires state.storage.redisAdapter.Valid()
    modifies state, state.storage.redisAdapter
    ensures r == value
  {
    state.WriteState(key, value);
    var storage := new RedisStorage(state.storage.redisAdapter);
    var reopened := new State(storage);
    r := reopened.ReadState(key, default);
  }
}
