/** The persisted configuration record of src/config.rs, without its serde and
    config-store plumbing. */
module Config {

  /** One configured clock: an IANA zone identifier and the label shown for it. */
  datatype Tz = Tz(name: string, displayName: string)

  /** The whole persisted configuration: clocks in display order. */
  datatype WorldClocksConfig = WorldClocksConfig(timezones: seq<Tz>)

  /** The configuration used when the store holds none. */
  const DefaultConfig: WorldClocksConfig :=
    WorldClocksConfig([
      Tz("Etc/UTC", "UTC"),
      Tz("Europe/London", "London"),
      Tz("Australia/Perth", "Perth")
    ])
}
