/** NginxLogger's translation between the template library's log priorities and nginx
    log levels. The library's priorities follow the syslog numbering (emergency 0 to
    debug 7); nginx numbers its levels from NGX_LOG_EMERG = 1 to NGX_LOG_DEBUG = 8. */
module LogLevels {
  const CtppEmerg: nat := 0
  const CtppAlert: nat := 1
  const CtppCrit: nat := 2
  const CtppErr: nat := 3
  const CtppWarn: nat := 4
  const CtppNotice: nat := 5
  const CtppInfo: nat := 6
  const CtppDebug: nat := 7

  const NgxEmerg: nat := 1
  const NgxAlert: nat := 2
  const NgxCrit: nat := 3
  const NgxErr: nat := 4
  const NgxWarn: nat := 5
  const NgxNotice: nat := 6
  const NgxInfo: nat := 7
  const NgxDebug: nat := 8

  /** The eight priorities the library defines. */
  predicate KnownPriority(p: nat)
  {
    p in {CtppEmerg, CtppAlert, CtppCrit, CtppErr, CtppWarn, CtppNotice, CtppInfo, CtppDebug}
  }

  /** The eight nginx levels from emergency to debug. */
  predicate KnownLevel(l: nat)
  {
    l in {NgxEmerg, NgxAlert, NgxCrit, NgxErr, NgxWarn, NgxNotice, NgxInfo, NgxDebug}
  }

  /** NginxLogger::Trans: the nginx level a message of priority p is logged at; an
      unknown priority is logged at debug level. */
  function Trans(p: nat): (l: nat)
    ensures KnownLevel(l)
  {
    if p == CtppEmerg then NgxEmerg
    else if p == CtppAlert then NgxAlert
    else if p == CtppCrit then NgxCrit
    else if p == CtppErr then NgxErr
    else if p == CtppWarn then NgxWarn
    else if p == CtppNotice then NgxNotice
    else if p == CtppInfo then NgxInfo
    else if p == CtppDebug then NgxDebug
    else NgxDebug
  }

  /** NginxLogger::revTrans: the library priority that matches the nginx log's level;
      any other level (such as one carrying debug bits) becomes the debug priority. */
  function RevTrans(l: nat): (p: nat)
    ensures KnownPriority(p)
  {
    if l == NgxEmerg then CtppEmerg
    else if l == NgxAlert then CtppAlert
    else if l == NgxCrit then CtppCrit
    else if l == NgxErr then CtppErr
    else if l == NgxWarn then CtppWarn
    else if l == NgxNotice then CtppNotice
    else if l == NgxInfo then CtppInfo
    else if l == NgxDebug then CtppDebug
    else CtppDebug
  }

  /** The two maps are inverse on the known values, in both directions. */
  lemma RoundTrips(p: nat, l: nat)
    ensures KnownPriority(p) ==> RevTrans(Trans(p)) == p
    ensures KnownLevel(l) ==> Trans(RevTrans(l)) == l
  {
  }

  /** Anything unknown is treated as debug, in both directions. */
  lemma UnknownIsDebug(p: nat, l: nat)
    ensures !KnownPriority(p) ==> Trans(p) == NgxDebug
    ensures !KnownLevel(l) ==> RevTrans(l) == CtppDebug
  {
  }

  /** Severity order is kept: a more urgent priority maps to a more urgent level. */
  lemma TransMonotone(p: nat, q: nat)
    requires KnownPriority(p) && KnownPriority(q) && p <= q
    ensures Trans(p) <= Trans(q)
  {
  }
}
