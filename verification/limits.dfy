/** Build-time sizes of the sample and of the ISO/BAP stack it runs on.
    Their values are not fixed here; the model only assumes the bounds that
    the sample's fixed-width integers and 32-bit bitfields need. */
module SinkConfig {
  import opened Bitfields

  datatype Limits = Limits(
    bisIndexMax: nat,       // BT_ISO_BIS_INDEX_MAX: highest BIS index
    maxGroupIsoCount: nat,  // BT_ISO_MAX_GROUP_ISO_COUNT: bits counted by get_stream_count
    maxSubgroups: nat,      // CONFIG_BT_BAP_BASS_MAX_SUBGROUPS: capacity of the subgroup tables
    streamCount: nat,       // CONFIG_BT_BAP_BROADCAST_SNK_STREAM_COUNT: concurrent streams
    noPref: Bitfield)       // BT_BAP_BIS_SYNC_NO_PREF: the "no preference" request value
  {
    predicate Valid() {
      // BT_ISO_BIS_INDEX_BIT(idx) is bit idx - 1 of a uint32_t
      && 1 <= bisIndexMax <= Width
      // get_stream_count tests BIT(i) of a uint32_t for every i below this count
      && maxGroupIsoCount <= Width
      // subgroup_cnt, the loop counters and keep_n's n are uint8_t
      && 1 <= maxSubgroups < 256
      && streamCount < 256
    }
  }
}
