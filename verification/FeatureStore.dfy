/** The Redis feature store of src/enrichment/redis_feature_store.cpp: a pool of connections, a single
    lookup and a pipelined batch. */
module FeatureStore {
  import opened Common
  import opened Wire
  import opened Replies

  /** How many of `n` replies arrive on a connection that breaks at reply `failAt`, if it does. */
  function Arrived(n: nat, failAt: Option<nat>): nat {
    if failAt.Some? && failAt.value < n then failAt.value else n
  }

  /** The results of a batch of which the first `answered` were answered. */
  function Answers(w: World, ids: seq<Bytes>, answered: nat): seq<Features> {
    seq(|ids|, i requires 0 <= i < |ids| => if i < answered then Lookup(w, ids[i]) else CACHE_MISS)
  }

  /** The pool after a lookup of `n` users: it has lost its last connection if that one broke. */
  function PoolAfter<T>(pool: seq<T>, n: nat, failAt: Option<nat>): seq<T> {
    if pool != [] && Arrived(n, failAt) < n then pool[..|pool| - 1] else pool
  }

  // ---------------------------------------------------------------------------------------------
  // Connections
  // ---------------------------------------------------------------------------------------------

  /** A hiredis context: the commands whose replies were not read yet, in order, and whether the
      connection broke. */
  class Context {
    var outstanding: seq<Bytes>
    var broken: bool

    constructor ()
      ensures outstanding == [] && !broken
    {
      outstanding := [];
      broken := false;
    }

    ghost predicate Clean()
      reads this
    {
      outstanding == [] && !broken
    }

    /** `redisAppendCommand`. */
    method AppendCommand(id: Bytes)
      modifies this`outstanding
      ensures outstanding == old(outstanding) + [id]
    {
      outstanding := outstanding + [id];
    }

    /** The loop that sends a batch. */
    method AppendCommands(ids: seq<Bytes>)
      modifies this`outstanding
      ensures outstanding == old(outstanding) + ids
    {
      for k := 0 to |ids|
        invariant outstanding == old(outstanding) + ids[..k]
      {
        AppendCommand(ids[k]);
        assert ids[..k + 1] == ids[..k] + [ids[k]];
      }
      assert ids[..|ids|] == ids;
    }

    /** `redisGetReply`: the reply to the oldest command without one, unless the connection fails. */
    method GetReply(w: World, fails: bool) returns (reply: Option<Reply>)
      requires outstanding != []
      modifies this
      ensures fails ==> reply == None && broken && outstanding == old(outstanding)
      ensures !fails ==> reply == Some(ReplyFor(w, old(outstanding[0]))) && outstanding == old(outstanding[1..])
                         && broken == old(broken)
    {
      if fails {
        broken := true;
        return None;
      }
      reply := Some(ReplyFor(w, outstanding[0]));
      outstanding := outstanding[1..];
    }
  }

  datatype LookupResult = Returned(features: Features) | Thrown

  class Store {
    const world: World
    var pool: seq<Context>

    /** Every pooled context is there once, unbroken, and has no unread reply. */
    ghost predicate Valid()
      reads this, pool
    {
      && WorldOk(world)
      && (forall i :: 0 <= i < |pool| ==> pool[i].Clean())
      && (forall i, j :: 0 <= i < j < |pool| ==> pool[i] != pool[j])
    }

    constructor (world: World, size: nat)
      requires WorldOk(world)
      ensures Valid() && this.world == world && |pool| == size && fresh(pool)
    {
      this.world := world;
      pool := [];
      new;
      for i := 0 to size
        invariant |pool| == i && Valid() && fresh(pool)
      {
        var ctx := new Context();
        pool := pool + [ctx];
      }
    }

    /** The connection at the back of the pool, or none. */
    method AcquireConnection() returns (ctx: Context?)
      requires Valid()
      modifies this`pool
      ensures Valid()
      ensures ctx == null <==> old(pool) == []
      ensures ctx == null ==> pool == old(pool)
      ensures ctx != null ==> ctx in old(pool) && old(pool) == pool + [ctx] && ctx !in pool && ctx.Clean()
    {
      if pool == [] { return null; }
      ctx := pool[|pool| - 1];
      pool := pool[..|pool| - 1];
    }

    method ReleaseConnection(ctx: Context)
      requires Valid() && ctx !in pool && ctx.Clean()
      modifies this`pool
      ensures Valid() && pool == old(pool) + [ctx]
    {
      pool := pool + [ctx];
    }

    /** `parse_reply`: fields and values two by two. */
    static method ParseReply(w: World, reply: Reply, initial: Features) returns (f: Features)
      requires reply.Array? && Paired(reply)
      ensures ReadFrom(w, reply.elements, initial, f)
      ensures f == ApplyFields(w, initial, reply.elements)
    {
      FieldsRead(w, initial, reply.elements);
      f := initial;
      var i := 0;
      while i < |reply.elements|
        invariant 0 <= i <= |reply.elements| && i % 2 == 0
        invariant ApplyFields(w, f, reply.elements[i..]) == ApplyFields(w, initial, reply.elements)
      {
        assert reply.elements[i..][2..] == reply.elements[i + 2..];
        f := ApplyField(w, f, reply.elements[i], reply.elements[i + 1]);
        i := i + 2;
      }
    }

    /** `get_features`; `fails` says whether the connection breaks during the command. */
    method GetFeatures(id: Bytes, fails: bool) returns (r: LookupResult)
      requires Valid()
      modifies this`pool, pool
      ensures Valid()
      ensures r.Thrown? <==> old(pool) != [] && fails
      ensures r.Returned? && old(pool) == [] ==> r.features == Features(0, 0.0, [], 0, 0.0, true)
      ensures r.Returned? && old(pool) != [] ==> IsAnswer(world, id, r.features)
      ensures r == if old(pool) == [] then Returned(CACHE_MISS)
                   else if fails then Thrown
                   else Returned(Lookup(world, id))
      ensures pool == PoolAfter(old(pool), 1, if fails then Some(0) else None)
    {
      var ctx := AcquireConnection();
      if ctx == null { return Returned(CACHE_MISS); }
      ctx.AppendCommand(id);
      var reply := ctx.GetReply(world, fails);
      if reply.None? {
        // discarded, not released
        return Thrown;
      }
      var f := ReadReply(reply.value, DEFAULTS);
      LookupIsAnswer(world, id);
      ReleaseConnection(ctx);
      return Returned(f);
    }

    /** `get_features_pipelined`; `failAt` is the reply at which the connection breaks, if it does.
        There is one result for each user: up to the failure what a single lookup returns, from there
        on misses.  The connection goes back to the pool only when every reply was read. */
    method GetFeaturesPipelined(ids: seq<Bytes>, failAt: Option<nat>) returns (results: seq<Features>)
      requires Valid()
      modifies this`pool, pool
      ensures Valid()
      ensures |results| == |ids|
      ensures forall i :: 0 <= i < |ids| ==>
                if old(pool) == [] || (failAt.Some? && failAt.value <= i)
                then results[i] == Features(0, 0.0, [], 0, 0.0, true)
                else results[i] == Lookup(world, ids[i]) && IsAnswer(world, ids[i], results[i])
      ensures pool == if old(pool) != [] && failAt.Some? && failAt.value < |ids| then old(pool)[..|old(pool)| - 1]
                      else old(pool)
      ensures results == Answers(world, ids, if old(pool) == [] then 0 else Arrived(|ids|, failAt))
      ensures pool == PoolAfter(old(pool), |ids|, failAt)
    {
      forall i | 0 <= i < |ids| ensures IsAnswer(world, ids[i], Lookup(world, ids[i])) {
        LookupIsAnswer(world, ids[i]);
      }
      var ctx := AcquireConnection();
      if ctx == null {
        results := seq(|ids|, _ => CACHE_MISS);
        return;
      }
      ctx.AppendCommands(ids);
      var complete;
      results, complete := ReadReplies(ctx, ids, failAt);
      // a broken connection is discarded, not released
      if complete {
        ReleaseConnection(ctx);
      }
    }

    /** The loop that reads the replies to a batch; a connection that breaks ends it. */
    method ReadReplies(ctx: Context, ids: seq<Bytes>, failAt: Option<nat>)
      returns (results: seq<Features>, complete: bool)
      requires WorldOk(world) && ctx.outstanding == ids && !ctx.broken
      modifies ctx
      ensures results == Answers(world, ids, Arrived(|ids|, failAt))
      ensures complete <==> Arrived(|ids|, failAt) == |ids|
      ensures complete ==> ctx.Clean()
    {
      results := seq(|ids|, _ => DEFAULTS);
      for i := 0 to |ids|
        invariant |results| == |ids|
        invariant ctx.outstanding == ids[i..] && !ctx.broken
        invariant failAt.Some? ==> i <= failAt.value
        invariant forall k :: 0 <= k < i ==> results[k] == Lookup(world, ids[k])
        invariant forall k :: i <= k < |ids| ==> results[k] == DEFAULTS
      {
        var reply := ctx.GetReply(world, failAt == Some(i));
        if reply.None? {
          results := MissFrom(results, i);
          return results, false;
        }
        var f := ReadReply(reply.value, results[i]);
        results := results[i := f];
      }
      return results, true;
    }

    /** The results from index `i` on become misses. */
    static method MissFrom(results: seq<Features>, i: nat) returns (marked: seq<Features>)
      requires i <= |results|
      requires forall k :: i <= k < |results| ==> results[k] == DEFAULTS
      ensures |marked| == |results|
      ensures forall k :: 0 <= k < |results| ==> marked[k] == if k < i then results[k] else CACHE_MISS
    {
      marked := results;
      for j := i to |results|
        invariant |marked| == |results|
        invariant forall k :: 0 <= k < |results| ==> marked[k] == if i <= k < j then CACHE_MISS else results[k]
      {
        marked := marked[j := marked[j].(isCacheMiss := true)];
      }
    }

    /** A miss unless the reply is a nonempty array, otherwise its fields. */
    method ReadReply(reply: Reply, initial: Features) returns (f: Features)
      requires Paired(reply) && initial == DEFAULTS
      ensures f == FeaturesOf(world, reply)
    {
      f := initial;
      if reply.NotArray? || reply.elements == [] {
        f := f.(isCacheMiss := true);
      } else {
        f := ParseReply(world, reply, f);
      }
    }
  }
}
