/**
 * The `webui-url-login/getBinding` listener: the platform identity of an account, read from the
 * `binding` table as the first row whose `aid` is the account id. The table is given as the
 * sequence of rows in the order the database returns them.
 */
module BindingLookup {
  import opened Wrappers

  /** A row of the `binding` table: an account id and one platform identity bound to it. */
  datatype Binding = Binding(aid: int, platform: string, pid: string)

  /** The two columns the listener asks for. */
  datatype PlatformId = PlatformId(platform: string, pid: string)

  /** The position of the first row of account id, or |table| when there is none. */
  function FirstRow(table: seq<Binding>, id: int): (k: nat)
    ensures k <= |table|
    ensures forall j :: 0 <= j < k ==> table[j].aid != id
    ensures k < |table| ==> table[k].aid == id
  {
    if table == [] then 0
    else if table[0].aid == id then 0
    else 1 + FirstRow(table[1..], id)
  }

  /** `(await ctx.database.get('binding', { aid: id }, ['platform', 'pid']))[0]`. */
  function GetBinding(table: seq<Binding>, id: int): (r: Option<PlatformId>)
    ensures r.None? <==> forall j :: 0 <= j < |table| ==> table[j].aid != id
    ensures r.Some? ==> PlatformId(table[FirstRow(table, id)].platform, table[FirstRow(table, id)].pid) == r.value
  {
    var k := FirstRow(table, id);
    if k == |table| then None else Some(PlatformId(table[k].platform, table[k].pid))
  }

  /** An account with exactly one binding gets that binding's platform and pid back unchanged. */
  lemma SingleBinding(table: seq<Binding>, id: int, k: nat)
    requires k < |table| && table[k].aid == id
    requires forall j :: 0 <= j < |table| && j != k ==> table[j].aid != id
    ensures GetBinding(table, id) == Some(PlatformId(table[k].platform, table[k].pid))
  {
  }
}
