/** Deduplication by job id in shared Redis (app/review/dedup.py). */
module Dedup {
  type Job = string

  datatype KeyState = InProgress | Completed

  type Keys = map<string, KeyState>

  // What the three Redis commands do to the shared keys.

  /** `SET key in_progress NX` succeeds. */
  predicate CanStart(keys: Keys, key: string) {
    key !in keys
  }

  function SetState(keys: Keys, key: string, state: KeyState): Keys {
    keys[key := state]
  }

  function Delete(keys: Keys, key: string): Keys {
    keys - {key}
  }

  // Counters per job.

  function CountOf(m: map<Job, nat>, j: Job): nat {
    if j in m then m[j] else 0
  }

  function Add(m: map<Job, nat>, j: Job): map<Job, nat> {
    m[j := CountOf(m, j) + 1]
  }

  class Redis {
    var keys: Keys

    constructor ()
      ensures keys == map[]
    {
      keys := map[];
    }
  }

  class RedisDedupStore {
    const redis: Redis
    const keyPrefix: string

    constructor (redis: Redis, keyPrefix: string)
      ensures this.redis == redis && this.keyPrefix == keyPrefix
    {
      this.redis, this.keyPrefix := redis, keyPrefix;
    }

    function Key(job: Job): string {
      keyPrefix + job
    }

    method TryStart(job: Job) returns (acquired: bool)
      modifies redis
      ensures acquired == (Key(job) !in old(redis.keys))
      ensures redis.keys == if acquired then old(redis.keys)[Key(job) := InProgress] else old(redis.keys)
    {
      acquired := CanStart(redis.keys, Key(job));
      if acquired {
        redis.keys := SetState(redis.keys, Key(job), InProgress);
      }
    }

    method MarkCompleted(job: Job)
      modifies redis
      ensures redis.keys == old(redis.keys)[Key(job) := Completed]
    {
      redis.keys := SetState(redis.keys, Key(job), Completed);
    }

    method MarkFailed(job: Job)
      modifies redis
      ensures redis.keys == old(redis.keys) - {Key(job)}
    {
      redis.keys := Delete(redis.keys, Key(job));
    }
  }

  /** Keys of one store never collide for different jobs. */
  lemma {:induction false} KeysDiffer(store: RedisDedupStore, a: Job, b: Job)
    ensures store.Key(a) == store.Key(b) <==> a == b
  {
    assert store.Key(a)[|store.keyPrefix|..] == a && store.Key(b)[|store.keyPrefix|..] == b;
  }
}
