/** Process environment variables as the two core files read them. */
module Environment {
  import opened Wrappers

  /** An environment variable: absent (`undefined`) or a string. */
  type EnvVar = Option<string>

  /** JavaScript truthiness of `process.env.X`: set and non-empty. */
  predicate IsSet(v: EnvVar)
  {
    v.Some? && v.value != ""
  }
}
