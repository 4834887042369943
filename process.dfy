/** ctpp2_process: parse the data buffer, run the template over it with the output
    collector writing into a chain that starts at the (emptied) data buffer, and hand
    the chain back, or nothing when the data buffer stayed empty. The JSON parser and
    the template VM belong to the template library; the model takes their outcome as
    parameters: whether parsing succeeds, the byte strings the VM hands to Collect, in
    order, and whether the VM fails after writing them. */
module Ctpp2Process {
  import opened NgxCore
  import opened OutputCollector

  /** The three results of ctpp2_process: its return code, *out and *out_size. On
      NGX_ERROR the source leaves *out and *out_size as they were; the model returns an
      empty chain and 0 there, which the caller never reads. */
  method Process(data: Buf, pool: Pool, pageSize: nat, parsed: bool, writes: seq<seq<byte>>,
                 faults: bool)
    returns (rc: Rc, out: seq<Buf>, outSize: nat)
    requires data.pos == 0 && data.last <= data.mem.Length && pageSize > 0
    modifies data, data.mem, pool
    ensures rc == Done || rc == Error
    ensures rc == Done ==> parsed && !faults && old(pool.left) > 0
    ensures rc == Error ==> !parsed || faults || pool.left == 0
    ensures rc == Error ==> out == [] && outSize == 0
    ensures !parsed ==> rc == Error && pool.left == old(pool.left) && data.last == old(data.last)
    ensures rc == Done ==> (out == [] <==> Flatten(writes) == [] || data.mem.Length == 0)
    ensures rc == Done && out == [] ==> outSize == 0 && data.last == 0
    ensures rc == Done && out != [] ==>
              out[0] == data && outSize == |Flatten(writes)| &&
              (forall j :: 0 <= j < |out| ==> out[j].pos <= out[j].last <= out[j].mem.Length) &&
              ChainBytes(out) == Flatten(writes)
    ensures rc == Done && out != [] ==>
              forall j :: 0 < j < |out| ==> out[j].mem.Length == pageSize
  {
    out, outSize := [], 0;
    if !parsed {
      return Error, out, outSize;
    }
    var gotLink := pool.Alloc();
    if !gotLink {
      return Error, out, outSize;
    }
    data.last := 0;
    var c := new Collector(pool, data, pageSize);
    assert data.mem[..0] == [];
    var k := 0;
    while k < |writes|
      invariant k <= |writes|
      invariant c.Valid() && c.pool == pool && c.pageSize == pageSize && c.chain[0] == data
      invariant c.Contents() == Flatten(writes[..k]) && c.total == |Flatten(writes[..k])|
      invariant c.chain[|c.chain| - 1] == data ||
                (fresh(c.chain[|c.chain| - 1]) && fresh(c.chain[|c.chain| - 1].mem))
      invariant fresh(c)
    {
      var ok := c.Collect(writes[k]);
      if !ok {
        return Error, out, outSize;
      }
      assert writes[..k + 1][..k] == writes[..k];
      k := k + 1;
    }
    assert writes[..k] == writes;
    if faults {
      return Error, out, outSize;
    }
    c.FirstEmpty();
    if data.last != 0 {
      c.ChainHolds();
      out, outSize := c.chain, c.total;
    }
    rc := Done;
  }
}
