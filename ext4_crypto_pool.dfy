/**
 * The encryption-context pool of fs/ext4/crypto.c: a LIFO free list of
 * preallocated contexts, contexts allocated on demand when it runs dry, the
 * flag bits that say which is which, and the setup and teardown of the
 * globals.  Allocation outcomes are inputs; the spinlock and mutex sections
 * are atomic steps.
 */
module Ext4CryptoPool {
  import opened Errno

  const EXT4_CTX_REQUIRES_FREE_ENCRYPT_FL: bv32 := 0x0000_0001
  const EXT4_WRITE_PATH_FL: bv32 := 0x0000_0002

  /** A struct page; only its identity and its page_private link are modelled. */
  class Page {
    var private: CryptoCtx?

    constructor ()
      ensures private == null
    {
      private := null;
    }
  }

  /** struct ext4_crypto_ctx. */
  class CryptoCtx {
    var flags: bv32
    var bouncePage: Page?
    var controlPage: Page?

    /** kmem_cache_zalloc: every field zero. */
    constructor ()
      ensures flags == 0 && bouncePage == null && controlPage == null
    {
      flags := 0;
      bouncePage := null;
      controlPage := null;
    }
  }

  /**
   * Freeing a list whose first `n` contexts were added to `live0` gives back
   * `live0` without the contexts of the original list `rest`.
   */
  lemma FreedNew(list: seq<CryptoCtx>, n: nat, live0: set<CryptoCtx>, rest: seq<CryptoCtx>)
    requires n <= |list| && list[n..] == rest
    requires forall k :: 0 <= k < n ==> list[k] !in live0
    ensures (live0 + set c | c in list[..n]) - (set c | c in list) == live0 - set c | c in rest
  {
  }

  class Ext4Crypto {
    /** num_prealloc_crypto_pages, a read-only module parameter. */
    const numPreallocCryptoPages: nat
    /** num_prealloc_crypto_ctxs, a read-only module parameter. */
    const numPreallocCryptoCtxs: nat

    /** ext4_free_crypto_ctxs, head first. */
    var freeList: seq<CryptoCtx>
    /** ext4_read_workqueue != NULL */
    var readWorkqueue: bool
    /** ext4_crypto_ctx_cachep != NULL */
    var ctxCache: bool
    /** ext4_crypt_info_cachep != NULL */
    var infoCache: bool
    /** ext4_bounce_page_pool != NULL */
    var bouncePagePool: bool
    /** Pages taken from the bounce page pool and not yet given back. */
    var lentPages: set<Page>
    /** Contexts allocated from the context cache and not yet freed. */
    ghost var live: set<CryptoCtx>

    /**
     * The pool invariant: the free list holds distinct, live contexts that are
     * pool-owned (REQUIRES_FREE clear).  Their page pointers mean nothing: the
     * list links share storage with them.
     */
    ghost predicate Valid()
      reads this, freeList
    {
      && (forall i, j :: 0 <= i < j < |freeList| ==> freeList[i] != freeList[j])
      && (forall c :: c in freeList ==> c in live && Pooled(c))
    }

    ghost predicate Pooled(ctx: CryptoCtx)
      reads ctx
    {
      ctx.flags & EXT4_CTX_REQUIRES_FREE_ENCRYPT_FL == 0
    }

    /**
     * Module load with the values given for the two module parameters
     * (32 and 128 unless set at load).
     */
    constructor (preallocPages: nat, preallocCtxs: nat)
      ensures Valid() && freeList == [] && lentPages == {} && live == {}
      ensures !readWorkqueue && !ctxCache && !infoCache && !bouncePagePool
      ensures numPreallocCryptoPages == preallocPages && numPreallocCryptoCtxs == preallocCtxs
    {
      numPreallocCryptoPages := preallocPages;
      numPreallocCryptoCtxs := preallocCtxs;
      freeList := [];
      readWorkqueue, ctxCache, infoCache, bouncePagePool := false, false, false, false;
      lentPages := {};
      live := {};
    }

    /** The first half of ext4_release_crypto_ctx: mempool_free of a write-path bounce page, then clear both page pointers. */
    method DropPages(ctx: CryptoCtx)
      requires Valid() && ctx !in freeList
      modifies this, ctx
      ensures Valid() && ctx !in freeList
      ensures ctx.flags == old(ctx.flags) && ctx.bouncePage == null && ctx.controlPage == null
      ensures lentPages ==
        if old(ctx.flags) & EXT4_WRITE_PATH_FL != 0 && old(ctx.bouncePage) != null
        then old(lentPages) - {old(ctx.bouncePage)} else old(lentPages)
      ensures freeList == old(freeList) && live == old(live)
      ensures readWorkqueue == old(readWorkqueue) && ctxCache == old(ctxCache)
      ensures infoCache == old(infoCache) && bouncePagePool == old(bouncePagePool)
    {
      if ctx.flags & EXT4_WRITE_PATH_FL != 0 && ctx.bouncePage != null {
        lentPages := lentPages - {ctx.bouncePage};
      }
      assert forall c :: c in freeList ==> c != ctx;
      ctx.bouncePage := null;
      ctx.controlPage := null;
    }

    /**
     * ext4_release_crypto_ctx: give back the bounce page if the context was on
     * the write path, drop both page pointers, then free an on-demand context
     * or push a pooled one onto the head of the free list.
     */
    method ReleaseCryptoCtx(ctx: CryptoCtx)
      requires Valid() && ctx in live && ctx !in freeList
      modifies this, ctx
      ensures Valid()
      ensures ctx.flags == old(ctx.flags)
      ensures lentPages ==
        if old(ctx.flags) & EXT4_WRITE_PATH_FL != 0 && old(ctx.bouncePage) != null
        then old(lentPages) - {old(ctx.bouncePage)} else old(lentPages)
      ensures old(ctx.flags) & EXT4_CTX_REQUIRES_FREE_ENCRYPT_FL != 0 ==>
        freeList == old(freeList) && live == old(live) - {ctx}
        && ctx.bouncePage == null && ctx.controlPage == null
      ensures old(ctx.flags) & EXT4_CTX_REQUIRES_FREE_ENCRYPT_FL == 0 ==>
        freeList == [ctx] + old(freeList) && live == old(live)
      ensures |freeList| >= |old(freeList)|
      ensures readWorkqueue == old(readWorkqueue) && ctxCache == old(ctxCache)
      ensures infoCache == old(infoCache) && bouncePagePool == old(bouncePagePool)
    {
      DropPages(ctx);
      if ctx.flags & EXT4_CTX_REQUIRES_FREE_ENCRYPT_FL != 0 {
        // kmem_cache_free
        live := live - {ctx};
      } else {
        // list_add: the links overwrite both page pointers
        freeList := [ctx] + freeList;
        ctx.bouncePage, ctx.controlPage := *, *;
      }
    }

    /** list_first_entry_or_null and list_del on the free list, under the spinlock. */
    method PopFreeList() returns (ctx: CryptoCtx)
      requires Valid() && freeList != []
      modifies this, freeList[0]
      ensures Valid() && ctx == old(freeList)[0] && freeList == old(freeList)[1..]
      ensures ctx in live && ctx !in freeList && Pooled(ctx) && live == old(live)
      ensures ctx.flags == old(ctx.flags)
      ensures lentPages == old(lentPages) && readWorkqueue == old(readWorkqueue) && ctxCache == old(ctxCache)
      ensures infoCache == old(infoCache) && bouncePagePool == old(bouncePagePool)
    {
      ctx := freeList[0];
      freeList := freeList[1..];
      // list_del poisons the links, which share storage with the page pointers
      ctx.bouncePage, ctx.controlPage := *, *;
    }

    /**
     * ext4_get_crypto_ctx.  `hasCryptInfo` is whether the inode has its
     * i_crypt_info; `allocOk` is the outcome kmem_cache_zalloc would have.
     */
    method GetCryptoCtx(hasCryptInfo: bool, allocOk: bool) returns (res: Ptr<CryptoCtx>)
      requires Valid()
      modifies this, if freeList != [] then {freeList[0]} else {}
      ensures Valid()
      ensures !hasCryptInfo ==> res == ErrPtr(-ENOKEY)
      ensures hasCryptInfo && old(freeList) != [] ==>
        && res == Ok(old(freeList)[0])
        && freeList == old(freeList)[1..]
        && res.value.flags == old(res.value.flags) & !(EXT4_CTX_REQUIRES_FREE_ENCRYPT_FL | EXT4_WRITE_PATH_FL)
      ensures hasCryptInfo && old(freeList) == [] && allocOk ==>
        && res.Ok? && fresh(res.value)
        && res.value.flags == EXT4_CTX_REQUIRES_FREE_ENCRYPT_FL
        && live == old(live) + {res.value}
      ensures hasCryptInfo && old(freeList) == [] && !allocOk ==> res == ErrPtr(-ENOMEM)
      ensures freeList == if res.Ok? && old(freeList) != [] then old(freeList)[1..] else old(freeList)
      ensures res.ErrPtr? ==> live == old(live)
      ensures res.ErrPtr? && old(freeList) != [] ==> unchanged(old(freeList)[0])
      ensures res.Ok? ==>
        && res.value in live && res.value !in freeList
        && res.value.flags & EXT4_WRITE_PATH_FL == 0
      ensures res.Ok? && old(freeList) == [] ==> res.value.bouncePage == null && res.value.controlPage == null
      ensures res.Ok? ==> (res.value.flags & EXT4_CTX_REQUIRES_FREE_ENCRYPT_FL != 0 <==> old(freeList) == [])
      ensures res.Ok? && old(freeList) != [] ==> live == old(live)
      ensures lentPages == old(lentPages) && readWorkqueue == old(readWorkqueue) && ctxCache == old(ctxCache)
      ensures infoCache == old(infoCache) && bouncePagePool == old(bouncePagePool)
    {
      if !hasCryptInfo {
        return ErrPtr(-ENOKEY);
      }
      var ctx: CryptoCtx;
      if freeList != [] {
        ctx := PopFreeList();
        ctx.flags := ctx.flags & !EXT4_CTX_REQUIRES_FREE_ENCRYPT_FL;
      } else {
        if !allocOk {
          return ErrPtr(-ENOMEM);
        }
        ctx := new CryptoCtx();
        live := live + {ctx};
        ctx.flags := ctx.flags | EXT4_CTX_REQUIRES_FREE_ENCRYPT_FL;
      }
      ctx.flags := ctx.flags & !EXT4_WRITE_PATH_FL;
      return Ok(ctx);
    }

    /**
     * alloc_bounce_page: take a page from the bounce page pool (`pageOk` is
     * whether mempool_alloc finds one) and mark the context as on the write path.
     */
    method AllocBouncePage(ctx: CryptoCtx, pageOk: bool) returns (res: Ptr<Page>)
      requires Valid() && ctx !in freeList
      modifies this, ctx
      ensures Valid()
      ensures pageOk ==>
        && res.Ok? && fresh(res.value) && res.value.private == null
        && ctx.bouncePage == res.value
        && ctx.flags == old(ctx.flags) | EXT4_WRITE_PATH_FL
        && lentPages == old(lentPages) + {res.value}
      ensures !pageOk ==>
        && res == ErrPtr(-ENOMEM) && ctx.bouncePage == null
        && ctx.flags == old(ctx.flags) && lentPages == old(lentPages)
      ensures ctx.controlPage == old(ctx.controlPage)
      ensures freeList == old(freeList) && live == old(live)
      ensures readWorkqueue == old(readWorkqueue) && ctxCache == old(ctxCache)
      ensures infoCache == old(infoCache) && bouncePagePool == old(bouncePagePool)
    {
      if !pageOk {
        ctx.bouncePage := null;
        return ErrPtr(-ENOMEM);
      }
      var page := new Page();
      lentPages := lentPages + {page};
      ctx.bouncePage := page;
      ctx.flags := ctx.flags | EXT4_WRITE_PATH_FL;
      return Ok(page);
    }

    /**
     * The control flow of ext4_encrypt around its collaborators: get a context,
     * take a bounce page, run the cipher (whose result is `cryptoErr`), and on
     * success link the ciphertext page to the context.  Every error exit hands
     * the context and the page back, so the pool ends as it began.
     */
    method Encrypt(plaintext: Page, hasCryptInfo: bool, ctxAllocOk: bool, pageOk: bool, cryptoErr: int)
      returns (res: Ptr<Page>)
      requires Valid() && cryptoErr <= 0
      modifies this, if freeList != [] then {freeList[0]} else {}
      ensures Valid()
      ensures res.ErrPtr? ==> freeList == old(freeList) && live == old(live) && lentPages == old(lentPages)
      ensures res.ErrPtr? ==>
        (res.errno == if !hasCryptInfo then -ENOKEY
                      else if old(freeList) == [] && !ctxAllocOk then -ENOMEM
                      else if !pageOk then -ENOMEM
                      else cryptoErr)
      ensures res.Ok? <==> hasCryptInfo && (old(freeList) != [] || ctxAllocOk) && pageOk && cryptoErr == 0
      ensures res.Ok? ==>
        && fresh(res.value) && res.value.private != null
        && res.value.private.bouncePage == res.value
        && res.value.private.controlPage == plaintext
        && res.value.private.flags & EXT4_WRITE_PATH_FL != 0
        && lentPages == old(lentPages) + {res.value}
        && freeList == if old(freeList) != [] then old(freeList)[1..] else old(freeList)
      ensures res.Ok? ==>
        && res.value.private in live && res.value.private !in freeList
        && (res.value.private.flags & EXT4_CTX_REQUIRES_FREE_ENCRYPT_FL != 0 <==> old(freeList) == [])
        && (old(freeList) != [] ==> res.value.private == old(freeList)[0] && live == old(live))
        && (old(freeList) == [] ==> fresh(res.value.private) && live == old(live) + {res.value.private})
      ensures readWorkqueue == old(readWorkqueue) && ctxCache == old(ctxCache)
      ensures infoCache == old(infoCache) && bouncePagePool == old(bouncePagePool)
    {
      var c := GetCryptoCtx(hasCryptInfo, ctxAllocOk);
      if c.ErrPtr? {
        return ErrPtr(c.errno);
      }
      var ctx := c.value;
      assert old(freeList) != [] ==> ctx == old(freeList)[0] && [ctx] + freeList == old(freeList);
      assert old(freeList) == [] ==> ctx !in old(live);
      var page := AllocBouncePage(ctx, pageOk);
      if page.ErrPtr? {
        ReleaseCryptoCtx(ctx);
        return page;
      }
      ctx.controlPage := plaintext;
      if cryptoErr != 0 {
        ReleaseCryptoCtx(ctx);
        return ErrPtr(cryptoErr);
      }
      // SetPagePrivate and set_page_private
      page.value.private := ctx;
      return page;
    }

    /**
     * A context taken and given straight back hands no page to the mempool,
     * whatever its page pointers hold after the list links, because get clears
     * WRITE_PATH; the pool ends as it began.
     */
    method GetThenRelease(hasCryptInfo: bool, allocOk: bool) returns (res: Ptr<CryptoCtx>)
      requires Valid()
      modifies this, if freeList != [] then {freeList[0]} else {}
      ensures Valid()
      ensures freeList == old(freeList) && live == old(live) && lentPages == old(lentPages)
      ensures res.Ok? <==> hasCryptInfo && (old(freeList) != [] || allocOk)
    {
      res := GetCryptoCtx(hasCryptInfo, allocOk);
      if res.Ok? {
        ReleaseCryptoCtx(res.value);
        assert old(freeList) != [] ==> [old(freeList)[0]] + old(freeList)[1..] == old(freeList);
      }
    }

    /**
     * ext4_restore_control_page on a ciphertext page: unlink the context from
     * the page, then release it, which returns the bounce page itself.
     */
    method RestoreControlPage(page: Page)
      requires Valid() && page.private != null && page.private in live && page.private !in freeList
      modifies this, page, page.private
      ensures Valid() && page.private == null
      ensures var ctx := old(page.private);
        && ctx.flags == old(ctx.flags)
        && lentPages ==
          (if old(ctx.flags) & EXT4_WRITE_PATH_FL != 0 && old(ctx.bouncePage) != null
           then old(lentPages) - {old(ctx.bouncePage)} else old(lentPages))
        && (old(ctx.flags) & EXT4_CTX_REQUIRES_FREE_ENCRYPT_FL != 0 ==>
              freeList == old(freeList) && live == old(live) - {ctx}
              && ctx.bouncePage == null && ctx.controlPage == null)
        && (old(ctx.flags) & EXT4_CTX_REQUIRES_FREE_ENCRYPT_FL == 0 ==>
              freeList == [ctx] + old(freeList) && live == old(live))
      ensures readWorkqueue == old(readWorkqueue) && ctxCache == old(ctxCache)
      ensures infoCache == old(infoCache) && bouncePagePool == old(bouncePagePool)
    {
      var ctx := page.private;
      page.private := null;
      ReleaseCryptoCtx(ctx);
    }

    /**
     * The write path's use of the pair: a successful ext4_encrypt followed by
     * ext4_restore_control_page on the page it returned gives back the context
     * and the bounce page, so the pool ends exactly as it began; a failed
     * ext4_encrypt has already done so.
     */
    method EncryptThenRestore(plaintext: Page, hasCryptInfo: bool, ctxAllocOk: bool, pageOk: bool, cryptoErr: int)
      returns (res: Ptr<Page>)
      requires Valid() && cryptoErr <= 0
      modifies this, if freeList != [] then {freeList[0]} else {}
      ensures Valid()
      ensures freeList == old(freeList) && live == old(live) && lentPages == old(lentPages)
      ensures res.Ok? <==> hasCryptInfo && (old(freeList) != [] || ctxAllocOk) && pageOk && cryptoErr == 0
      ensures res.Ok? ==> fresh(res.value) && res.value.private == null
    {
      res := Encrypt(plaintext, hasCryptInfo, ctxAllocOk, pageOk, cryptoErr);
      if res.Ok? {
        RestoreControlPage(res.value);
        assert old(freeList) != [] ==> [old(freeList)[0]] + old(freeList)[1..] == old(freeList);
      }
    }

    /**
     * ext4_exit_crypto: free every context on the free list, empty it, and
     * tear down the bounce page pool, the workqueue and both caches.
     */
    method ExitCrypto()
      modifies this
      ensures Valid()
      ensures freeList == [] && live == old(live) - set c | c in old(freeList)
      ensures !readWorkqueue && !ctxCache && !infoCache && !bouncePagePool
      ensures lentPages == old(lentPages)
    {
      var i := 0;
      while i < |freeList|
        invariant 0 <= i <= |freeList|
        invariant freeList == old(freeList) && lentPages == old(lentPages)
        invariant live == old(live) - set c | c in freeList[..i]
      {
        live := live - {freeList[i]};
        assert freeList[..i + 1] == freeList[..i] + [freeList[i]];
        i := i + 1;
      }
      assert freeList[..i] == freeList;
      freeList := [];
      bouncePagePool := false;
      readWorkqueue := false;
      ctxCache := false;
      infoCache := false;
    }

    /**
     * ext4_init_crypto.  The outcomes of the workqueue, the two caches and the
     * bounce page pool are inputs; the first `ctxAllocs` context allocations
     * succeed and the next one fails.
     */
    method InitCrypto(wqOk: bool, ctxCacheOk: bool, infoCacheOk: bool, ctxAllocs: nat, poolOk: bool)
      returns (res: int)
      requires Valid()
      modifies this
      ensures Valid()
      ensures old(readWorkqueue) ==>
        && res == 0 && freeList == old(freeList) && live == old(live)
        && readWorkqueue && ctxCache == old(ctxCache) && infoCache == old(infoCache)
        && bouncePagePool == old(bouncePagePool)
      ensures !old(readWorkqueue) ==>
        (res == 0 <==> wqOk && ctxCacheOk && infoCacheOk && ctxAllocs >= numPreallocCryptoCtxs && poolOk)
      ensures !old(readWorkqueue) && res == 0 ==>
        && readWorkqueue && ctxCache && infoCache && bouncePagePool
        && |freeList| == |old(freeList)| + numPreallocCryptoCtxs
        && freeList[numPreallocCryptoCtxs..] == old(freeList)
        && (forall i :: 0 <= i < numPreallocCryptoCtxs ==> fresh(freeList[i]) && freeList[i].flags == 0)
        && live == old(live) + set c | c in freeList[..numPreallocCryptoCtxs]
      ensures !old(readWorkqueue) && res != 0 ==>
        && res == -ENOMEM && freeList == [] && live == old(live) - set c | c in old(freeList)
        && !readWorkqueue && !ctxCache && !infoCache && !bouncePagePool
      ensures lentPages == old(lentPages)
    {
      if readWorkqueue {
        return 0;
      }
      res := -ENOMEM;
      readWorkqueue := wqOk;
      if !readWorkqueue {
        ExitCrypto();
        return res;
      }
      ctxCache := ctxCacheOk;
      if !ctxCache {
        ExitCrypto();
        return res;
      }
      infoCache := infoCacheOk;
      if !infoCache {
        ExitCrypto();
        return res;
      }
      var i := 0;
      while i < numPreallocCryptoCtxs
        invariant 0 <= i <= numPreallocCryptoCtxs && i <= ctxAllocs
        invariant Valid()
        invariant |freeList| == |old(freeList)| + i && freeList[i..] == old(freeList)
        invariant forall k :: 0 <= k < i ==> fresh(freeList[k]) && freeList[k].flags == 0
        invariant live == old(live) + set c | c in freeList[..i]
        invariant readWorkqueue && ctxCache && infoCache && !old(readWorkqueue)
        invariant bouncePagePool == old(bouncePagePool) && lentPages == old(lentPages)
      {
        if i >= ctxAllocs {
          assert forall k :: 0 <= k < i ==> freeList[k] !in old(live);
          FreedNew(freeList, i, old(live), old(freeList));
          ExitCrypto();
          return -ENOMEM;
        }
        var ctx := new CryptoCtx();
        live := live + {ctx};
        assert ([ctx] + freeList)[..i + 1] == [ctx] + freeList[..i];
        freeList := [ctx] + freeList;
        i := i + 1;
      }
      bouncePagePool := poolOk;
      if !bouncePagePool {
        assert forall k :: 0 <= k < i ==> freeList[k] !in old(live);
        FreedNew(freeList, i, old(live), old(freeList));
        ExitCrypto();
        return -ENOMEM;
      }
      return 0;
    }
  }
}
