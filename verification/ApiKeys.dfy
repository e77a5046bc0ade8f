// ApiKey.is_active of apps/api_keys/models.py, for both views of the key cache.
module ApiKeys {
  import opened Wrappers

  predicate IsActive(revoked: bool, expiresAt: Option<int>, now: int) {
    !revoked && (expiresAt.None? || expiresAt.value > now)
  }
}
