/** Request metadata and the header names that the repository gives a meaning. */
module Metadata {

  type MD = map<string, seq<string>>

  const X_REAL_IP := "x-real-ip"
  const X_FORWARDED_FOR := "x-forwarded-for"
  const TRACE_PARENT := "traceparent"
  const TRACE_STATE := "tracestate"
  const BAGGAGE := "baggage"
  const APP_LANGUAGE := "x-firefly-app-language"
  const APP_VERSION := "x-firefly-app-version"
  const SUBJECT_TYPE := "x-firefly-subject-type"
  const DECISION_ID := "x-firefly-decision-id"
  const AUTHZ_SIGN := "x-firefly-authz-sign"
  const SYSTEM_TYPE := "x-firefly-system-type"
  const SYSTEM_NAME := "x-firefly-system-name"
  const SYSTEM_VERSION := "x-firefly-system-version"
  const CLIENT_TYPE := "x-firefly-client-type"
  const CLIENT_NAME := "x-firefly-client-name"
  const CLIENT_VERSION := "x-firefly-client-version"
  const USER_AUTHORITY := "x-firefly-user-authority"
  const SERVICE_AUTHORITY := "x-firefly-service-authority"
  const SERVICE_APP_ID := "x-firefly-service-app-id"
  const SERVICE_INSTANCE_ID := "x-firefly-service-instance-id"
  const USER_ID := "x-firefly-user-id"
  const SESSION := "x-firefly-session"
  const ORG_IDS := "x-firefly-org-ids"
  const POST_IDS := "x-firefly-post-ids"
  const ROLE_IDS := "x-firefly-role-ids"
  const APP_ID := "x-firefly-app-id"
  const TENANT_ID := "x-firefly-tenant-id"
  const INVOKE_APP_ID := "x-firefly-invoke-app-id"
  const TARGET_APP_ID := "x-firefly-target-app-id"
  const ROUTE_METHOD := "x-firefly-route-method"
  const ROUTE_PATH := "x-firefly-route-path"
  const TARGET_METHOD := "x-firefly-target-method"
  const TARGET_PATH := "x-firefly-target-path"

  function Values(md: MD, key: string): seq<string> {
    if key in md then md[key] else []
  }

  /** The first value of a key, or the empty string. */
  function First(md: MD, key: string): string {
    if Values(md, key) == [] then "" else Values(md, key)[0]
  }

  /** The first of the values under a key, and the empty string only when there is none or it is empty. */
  lemma FirstIsFirst(md: MD, key: string)
    ensures key in md && |md[key]| > 0 ==> First(md, key) == md[key][0]
    ensures key !in md || |md[key]| == 0 ==> First(md, key) == ""
    ensures key in md ==> Values(md, key) == md[key]
    ensures key !in md ==> Values(md, key) == []
  {
  }
}
