/** The lock settings shared by the settings cache and the auto-lock, in minutes, and their shared defaults and bounds. */
module LockSettings {
  const AUTO_LOCK_TIMEOUT_MINUTES := 15.0
  const AUTO_LOCK_MIN_MINUTES := 1.0
  const AUTO_LOCK_MAX_MINUTES := 1440.0
  const LOCK_ON_HIDDEN_DEFAULT := false
  const LOCK_ON_HIDDEN_DELAY_MINUTES := 1.0

  datatype Settings = Settings(autoLockTimeout: real, lockOnHidden: bool, lockOnHiddenDelay: real)
}
