/**
 * The two pure decisions of fs/ext4/crypto.c: which pairs of encryption modes
 * a policy may use, and whether a cached dentry in an encrypted directory is
 * still valid.
 */
module Ext4CryptoChecks {
  import opened Errno

  newtype u32 = x: int | 0 <= x < 0x1_0000_0000

  const EXT4_ENCRYPTION_MODE_AES_256_XTS: u32 := 1
  const EXT4_ENCRYPTION_MODE_AES_256_CTS: u32 := 4
  const EXT4_ENCRYPTION_MODE_ADIANTUM: u32 := 9

  /** The supported (contents mode, filenames mode) pairs. */
  const SupportedModePairs: set<(u32, u32)> := {
    (EXT4_ENCRYPTION_MODE_AES_256_XTS, EXT4_ENCRYPTION_MODE_AES_256_CTS),
    (EXT4_ENCRYPTION_MODE_ADIANTUM, EXT4_ENCRYPTION_MODE_ADIANTUM)
  }

  /** ext4_valid_enc_modes. */
  function ValidEncModes(contentsMode: u32, filenamesMode: u32): (r: bool)
    ensures r <==> (contentsMode, filenamesMode) in SupportedModePairs
    // the contents mode alone decides which filenames mode is acceptable
    ensures r ==> (filenamesMode == if contentsMode == EXT4_ENCRYPTION_MODE_AES_256_XTS
                                    then EXT4_ENCRYPTION_MODE_AES_256_CTS
                                    else EXT4_ENCRYPTION_MODE_ADIANTUM)
  {
    if contentsMode == EXT4_ENCRYPTION_MODE_AES_256_XTS then
      filenamesMode == EXT4_ENCRYPTION_MODE_AES_256_CTS
    else if contentsMode == EXT4_ENCRYPTION_MODE_ADIANTUM then
      filenamesMode == EXT4_ENCRYPTION_MODE_ADIANTUM
    else
      false
  }

  /** LOOKUP_RCU in the lookup flags. */
  const LOOKUP_RCU: bv32 := 0x0040

  /**
   * ext4_d_revalidate.  `parentEncrypted` is ext4_encrypted_inode of the parent,
   * `dirHasKey` that the parent's i_crypt_info is set, `cachedWithKey` that the
   * dentry's d_fsdata is set, `positive` that the dentry has an inode.
   */
  function DRevalidate(flags: bv32, parentEncrypted: bool, cachedWithKey: bool, dirHasKey: bool,
                       positive: bool): (r: int)
    ensures flags & LOOKUP_RCU != 0 ==> r == -ECHILD
    ensures flags & LOOKUP_RCU == 0 && !parentEncrypted ==> r == 0
    ensures flags & LOOKUP_RCU == 0 && parentEncrypted ==>
      (r == 1 <==> (cachedWithKey && dirHasKey) || (!cachedWithKey && !dirHasKey && positive)) &&
      (r == 0 || r == 1)
  {
    if flags & LOOKUP_RCU != 0 then -ECHILD
    else if !parentEncrypted then 0
    else if (!cachedWithKey && !positive) || (!cachedWithKey && dirHasKey) || (cachedWithKey && !dirHasKey) then 0
    else 1
  }

  /**
   * Outside RCU walk, a dentry cached in an encrypted directory is kept only if
   * the key's presence is what it was when the dentry was cached, and a
   * negative dentry cached without the key is never kept.
   */
  lemma RevalidateKeepsOnlyMatchingKeyState(flags: bv32, cachedWithKey: bool, dirHasKey: bool, positive: bool)
    requires flags & LOOKUP_RCU == 0
    ensures DRevalidate(flags, true, cachedWithKey, dirHasKey, positive) == 1 ==> cachedWithKey == dirHasKey
    ensures !cachedWithKey && !positive ==> DRevalidate(flags, true, cachedWithKey, dirHasKey, positive) == 0
  {
  }
}
